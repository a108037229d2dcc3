/**
 * Serialising one option of a mod (`ISubMod.WriteSubMod`).  The JSON writer
 * is modelled as the sequence of tokens it has been given; the nested JSON
 * of the manipulation set, produced by the general serializer, is one
 * opaque token.
 */
module SubModWriter {
  import opened Common
  import opened MetaManipulations
  import opened Mods

  datatype Token =
    | StartObject
    | EndObject
    | PropertyName(name: string)
    | StringValue(value: string)
    | IntValue(number: int)
    | Serialized(manipulations: seq<MetaManipulation>)

  /** A JSON writer: everything written to it, in order. */
  class JsonWriter {
    var tokens: seq<Token>

    constructor ()
      ensures tokens == []
    {
      tokens := [];
    }

    method Write(t: Token)
      modifies this
      ensures tokens == old(tokens) + [t]
    {
      tokens := tokens + [t];
    }
  }

  // ---------------------------------------------------------------------
  // The tokens of one sub-mod

  /** The name/value tokens of a list of string pairs. */
  function EntryTokens(pairs: seq<(string, string)>): (r: seq<Token>)
    ensures |r| == 2 * |pairs|
    decreases |pairs|
  {
    if pairs == [] then []
    else
      var last := pairs[|pairs| - 1];
      EntryTokens(pairs[..|pairs| - 1]) + [PropertyName(last.0), StringValue(last.1)]
  }

  /** The `Files` entries: the files whose path converts to one relative to the mod's directory, keyed by game path. */
  function ConvertedFiles(files: seq<(GamePath, FullPath)>, relPath: FullPath -> Option<string>): seq<(string, string)>
    decreases |files|
  {
    if files == [] then []
    else
      var last := files[|files| - 1];
      ConvertedFiles(files[..|files| - 1], relPath)
        + (if relPath(last.1).Some? then [(last.0.path, relPath(last.1).value)] else [])
  }

  /** The `FileSwaps` entries: every swap, its target written out in full. */
  function SwapPairs(swaps: seq<(GamePath, FullPath)>): (r: seq<(string, string)>)
    ensures |r| == |swaps|
    ensures forall k :: 0 <= k < |r| ==> r[k] == (swaps[k].0.path, swaps[k].1.fullName)
  {
    seq(|swaps|, k requires 0 <= k < |swaps| => (swaps[k].0.path, swaps[k].1.fullName))
  }

  function PriorityTokens(priority: Option<int>): seq<Token> {
    if priority.Some? then [PropertyName("Priority"), IntValue(priority.value)] else []
  }

  /** The tokens after the name and priority: files, swaps and manipulations, closing the object. */
  function BodyTokens(mod: SubMod, relPath: FullPath -> Option<string>): seq<Token> {
    [PropertyName("Files"), StartObject]
      + EntryTokens(ConvertedFiles(mod.files, relPath))
      + [EndObject]
      + SwapsTokens(mod)
  }

  function SwapsTokens(mod: SubMod): seq<Token> {
    [PropertyName("FileSwaps"), StartObject]
      + EntryTokens(SwapPairs(mod.fileSwaps))
      + [EndObject]
      + ManipulationTokens(mod)
  }

  function ManipulationTokens(mod: SubMod): seq<Token> {
    [PropertyName("Manipulations"), Serialized(mod.manipulations), EndObject]
  }

  /** Everything `WriteSubMod` writes for option `mod` with the given group priority. */
  function SubModTokens(mod: SubMod, priority: Option<int>, relPath: FullPath -> Option<string>): seq<Token> {
    [StartObject, PropertyName("Name"), StringValue(mod.name)] + PriorityTokens(priority) + BodyTokens(mod, relPath)
  }

  /** The `Files` loop of `WriteSubMod`. */
  method WriteFiles(j: JsonWriter, files: seq<(GamePath, FullPath)>, relPath: FullPath -> Option<string>)
    modifies j
    ensures j.tokens == old(j.tokens) + EntryTokens(ConvertedFiles(files, relPath))
  {
    var i := 0;
    while i < |files|
      invariant 0 <= i <= |files|
      invariant j.tokens == old(j.tokens) + EntryTokens(ConvertedFiles(files[..i], relPath))
    {
      var (gamePath, file) := files[i];
      ConvertedFilesStep(files, relPath, i);
      var rel := relPath(file);
      if rel.Some? {
        ghost var done := EntryTokens(ConvertedFiles(files[..i], relPath));
        j.Write(PropertyName(gamePath.path));
        j.Write(StringValue(rel.value));
        EntryTokensSnoc(ConvertedFiles(files[..i], relPath), (gamePath.path, rel.value));
        Append2(old(j.tokens), done, PropertyName(gamePath.path), StringValue(rel.value));
      }
      i := i + 1;
    }
    assert files[..i] == files;
  }

  lemma ConvertedFilesStep(files: seq<(GamePath, FullPath)>, relPath: FullPath -> Option<string>, i: int)
    requires 0 <= i < |files|
    ensures relPath(files[i].1).Some? ==>
      ConvertedFiles(files[..i + 1], relPath) == ConvertedFiles(files[..i], relPath) + [(files[i].0.path, relPath(files[i].1).value)]
    ensures relPath(files[i].1).None? ==> ConvertedFiles(files[..i + 1], relPath) == ConvertedFiles(files[..i], relPath)
  {
    assert files[..i + 1][..i] == files[..i];
    assert ConvertedFiles(files[..i], relPath) + [] == ConvertedFiles(files[..i], relPath);
  }

  /** The `FileSwaps` loop of `WriteSubMod`. */
  method WriteSwaps(j: JsonWriter, swaps: seq<(GamePath, FullPath)>)
    modifies j
    ensures j.tokens == old(j.tokens) + EntryTokens(SwapPairs(swaps))
  {
    var i := 0;
    while i < |swaps|
      invariant 0 <= i <= |swaps|
      invariant j.tokens == old(j.tokens) + EntryTokens(SwapPairs(swaps[..i]))
    {
      var (gamePath, file) := swaps[i];
      ghost var done := EntryTokens(SwapPairs(swaps[..i]));
      j.Write(PropertyName(gamePath.path));
      j.Write(StringValue(file.fullName));
      assert SwapPairs(swaps[..i + 1]) == SwapPairs(swaps[..i]) + [(gamePath.path, file.fullName)];
      EntryTokensSnoc(SwapPairs(swaps[..i]), (gamePath.path, file.fullName));
      Append2(old(j.tokens), done, PropertyName(gamePath.path), StringValue(file.fullName));
      i := i + 1;
    }
    assert swaps[..i] == swaps;
  }

  /** The opening of the object: name and, when given, priority. */
  method WriteHeader(j: JsonWriter, name: string, priority: Option<int>)
    modifies j
    ensures j.tokens == old(j.tokens) + [StartObject, PropertyName("Name"), StringValue(name)] + PriorityTokens(priority)
  {
    j.Write(StartObject);
    j.Write(PropertyName("Name"));
    j.Write(StringValue(name));
    if priority.Some? {
      j.Write(PropertyName("Priority"));
      j.Write(IntValue(priority.value));
    }
  }

  /** The `Files` property: a nested object of the convertible files. */
  method WriteFilesObject(j: JsonWriter, files: seq<(GamePath, FullPath)>, relPath: FullPath -> Option<string>)
    modifies j
    ensures j.tokens == old(j.tokens) + [PropertyName("Files"), StartObject] + EntryTokens(ConvertedFiles(files, relPath)) + [EndObject]
  {
    j.Write(PropertyName("Files"));
    j.Write(StartObject);
    WriteFiles(j, files, relPath);
    j.Write(EndObject);
  }

  /** The `FileSwaps` property: a nested object of every swap. */
  method WriteSwapsObject(j: JsonWriter, swaps: seq<(GamePath, FullPath)>)
    modifies j
    ensures j.tokens == old(j.tokens) + [PropertyName("FileSwaps"), StartObject] + EntryTokens(SwapPairs(swaps)) + [EndObject]
  {
    j.Write(PropertyName("FileSwaps"));
    j.Write(StartObject);
    WriteSwaps(j, swaps);
    j.Write(EndObject);
  }

  /** The `FileSwaps` and `Manipulations` properties, closing the object. */
  method WriteSwapsAndManipulations(j: JsonWriter, mod: SubMod)
    modifies j
    ensures j.tokens == old(j.tokens) + SwapsTokens(mod)
  {
    WriteSwapsObject(j, mod.fileSwaps);
    ghost var t := j.tokens;
    j.Write(PropertyName("Manipulations"));
    j.Write(Serialized(mod.manipulations));
    j.Write(EndObject);
    assert j.tokens == t + ManipulationTokens(mod);
  }

  /** Everything after the name and priority. */
  method WriteBody(j: JsonWriter, mod: SubMod, relPath: FullPath -> Option<string>)
    modifies j
    ensures j.tokens == old(j.tokens) + BodyTokens(mod, relPath)
  {
    ghost var t0 := j.tokens;
    WriteFilesObject(j, mod.files, relPath);
    ghost var t1 := j.tokens;
    WriteSwapsAndManipulations(j, mod);
    Regroup(t0, [PropertyName("Files"), StartObject], EntryTokens(ConvertedFiles(mod.files, relPath)), [EndObject], SwapsTokens(mod));
  }

  lemma Append2(o: seq<Token>, done: seq<Token>, a: Token, b: Token)
    ensures o + done + [a] + [b] == o + (done + [a, b])
  {
  }

  lemma Regroup(o: seq<Token>, a: seq<Token>, b: seq<Token>, c: seq<Token>, d: seq<Token>)
    ensures o + a + b + c + d == o + (a + b + c + d)
  {
  }

  /**
   * `WriteSubMod`: name, the priority when there is one, the convertible
   * files, every swap and the manipulations, as one object.
   */
  method WriteSubMod(j: JsonWriter, mod: SubMod, relPath: FullPath -> Option<string>, priority: Option<int>)
    modifies j
    ensures j.tokens == old(j.tokens) + SubModTokens(mod, priority, relPath)
  {
    WriteHeader(j, mod.name, priority);
    WriteBody(j, mod, relPath);
  }

  lemma EntryTokensSnoc(pairs: seq<(string, string)>, p: (string, string))
    ensures EntryTokens(pairs + [p]) == EntryTokens(pairs) + [PropertyName(p.0), StringValue(p.1)]
  {
    assert (pairs + [p])[..|pairs|] == pairs;
  }

  lemma {:induction false} EntryTokensCons(p: (string, string), pairs: seq<(string, string)>)
    ensures EntryTokens([p] + pairs) == [PropertyName(p.0), StringValue(p.1)] + EntryTokens(pairs)
    decreases |pairs|
  {
    if pairs == [] {
      assert [p] + pairs == [p];
      assert [p][..0] == [];
    } else {
      var init := pairs[..|pairs| - 1];
      var last := pairs[|pairs| - 1];
      assert ([p] + pairs)[..|pairs|] == [p] + init;
      EntryTokensCons(p, init);
    }
  }

  // ---------------------------------------------------------------------
  // The tokens form one object

  function Net(t: Token): int {
    match t
    case StartObject => 1
    case EndObject => -1
    case _ => 0
  }

  /**
   * Starting inside an object nested `depth` deep, the tokens stay inside it
   * and the last one closes the outermost object.
   */
  predicate ClosesAtEnd(ts: seq<Token>, depth: int)
    decreases |ts|
  {
    if ts == [] then false
    else if |ts| == 1 then depth + Net(ts[0]) == 0
    else depth + Net(ts[0]) >= 1 && ClosesAtEnd(ts[1..], depth + Net(ts[0]))
  }

  /** A single balanced JSON object: opened by the first token and closed by the last one only. */
  predicate OneObject(ts: seq<Token>) {
    |ts| >= 2 && ts[0] == StartObject && ClosesAtEnd(ts[1..], 1)
  }

  /** Tokens that open and close nothing leave the depth alone. */
  lemma {:induction false} FlatPrefix(flat: seq<Token>, rest: seq<Token>, depth: int)
    requires forall k :: 0 <= k < |flat| ==> Net(flat[k]) == 0
    requires depth >= 1 && rest != []
    ensures ClosesAtEnd(flat + rest, depth) == ClosesAtEnd(rest, depth)
    decreases |flat|
  {
    if flat != [] {
      var ts := flat + rest;
      assert ts[0] == flat[0] && Net(flat[0]) == 0;
      assert ts[1..] == flat[1..] + rest;
      assert |ts| >= 2;
      assert ClosesAtEnd(ts, depth) == ClosesAtEnd(ts[1..], depth);
      assert forall k :: 0 <= k < |flat[1..]| ==> Net(flat[1..][k]) == 0 by {
        forall k | 0 <= k < |flat[1..]|
          ensures Net(flat[1..][k]) == 0
        {
          assert flat[1..][k] == flat[k + 1];
        }
      }
      FlatPrefix(flat[1..], rest, depth);
    } else {
      assert flat + rest == rest;
    }
  }

  /** Entries are property names and string values only: they open and close nothing. */
  lemma {:induction false} EntryTokensFlat(pairs: seq<(string, string)>)
    ensures forall k :: 0 <= k < |EntryTokens(pairs)| ==> Net(EntryTokens(pairs)[k]) == 0
    decreases |pairs|
  {
    if pairs != [] {
      var init := pairs[..|pairs| - 1];
      EntryTokensFlat(init);
      var last := pairs[|pairs| - 1];
      var r := EntryTokens(pairs);
      assert r == EntryTokens(init) + [PropertyName(last.0), StringValue(last.1)];
      forall k | 0 <= k < |r|
        ensures Net(r[k]) == 0
      {
        if k < |EntryTokens(init)| {
          assert r[k] == EntryTokens(init)[k];
        }
      }
    }
  }

  /** Inside the object, one flat token then whatever follows. */
  lemma StepFlat(t: Token, rest: seq<Token>, depth: int)
    requires Net(t) == 0 && depth >= 1 && rest != []
    ensures ClosesAtEnd([t] + rest, depth) == ClosesAtEnd(rest, depth)
  {
    assert ([t] + rest)[1..] == rest;
  }

  lemma ManipulationTokensClose(mod: SubMod)
    ensures ClosesAtEnd(ManipulationTokens(mod), 1)
  {
    var t := ManipulationTokens(mod);
    assert t[1..][1..] == [EndObject];
    assert ClosesAtEnd(t[1..][1..], 1);
    assert ClosesAtEnd(t[1..], 1);
  }

  /** A nested object (property name, StartObject, flat entries, EndObject) followed by the rest. */
  lemma NestedObject(key: string, entries: seq<Token>, rest: seq<Token>)
    requires forall k :: 0 <= k < |entries| ==> Net(entries[k]) == 0
    requires ClosesAtEnd(rest, 1)
    ensures ClosesAtEnd([PropertyName(key), StartObject] + entries + [EndObject] + rest, 1)
  {
    var inner := [EndObject] + rest;
    assert ClosesAtEnd(inner, 2) by {
      assert inner[1..] == rest;
    }
    FlatPrefix(entries, inner, 2);
    var nested := [StartObject] + entries + inner;
    assert nested[1..] == entries + inner;
    assert ClosesAtEnd(nested, 1);
    var ts := [PropertyName(key), StartObject] + entries + [EndObject] + rest;
    assert ts == [PropertyName(key)] + nested;
    StepFlat(PropertyName(key), nested, 1);
  }

  lemma SwapsClose(mod: SubMod)
    ensures ClosesAtEnd(SwapsTokens(mod), 1)
  {
    ManipulationTokensClose(mod);
    EntryTokensFlat(SwapPairs(mod.fileSwaps));
    NestedObject("FileSwaps", EntryTokens(SwapPairs(mod.fileSwaps)), ManipulationTokens(mod));
  }

  lemma BodyCloses(mod: SubMod, relPath: FullPath -> Option<string>)
    ensures ClosesAtEnd(BodyTokens(mod, relPath), 1)
  {
    SwapsClose(mod);
    EntryTokensFlat(ConvertedFiles(mod.files, relPath));
    NestedObject("Files", EntryTokens(ConvertedFiles(mod.files, relPath)), SwapsTokens(mod));
  }

  lemma HeadFlat(name: string, priority: Option<int>)
    ensures forall k :: 0 <= k < |[PropertyName("Name"), StringValue(name)] + PriorityTokens(priority)| ==>
      Net(([PropertyName("Name"), StringValue(name)] + PriorityTokens(priority))[k]) == 0
  {
  }

  lemma Enclosed(inner: seq<Token>)
    requires ClosesAtEnd(inner, 1)
    ensures OneObject([StartObject] + inner)
  {
    assert ([StartObject] + inner)[1..] == inner;
  }

  /** The output of `WriteSubMod` is one object: StartObject first, EndObject last, balanced in between. */
  lemma SubModIsOneObject(mod: SubMod, priority: Option<int>, relPath: FullPath -> Option<string>)
    ensures OneObject(SubModTokens(mod, priority, relPath))
  {
    var body := BodyTokens(mod, relPath);
    BodyCloses(mod, relPath);
    var head := [PropertyName("Name"), StringValue(mod.name)] + PriorityTokens(priority);
    HeadFlat(mod.name, priority);
    FlatPrefix(head, body, 1);
    Enclosed(head + body);
    assert SubModTokens(mod, priority, relPath) == [StartObject] + (head + body);
  }

  // ---------------------------------------------------------------------
  // Reading the tokens back

  /** What a reader of the sub-mod object recovers. */
  datatype SubModRecord = SubModRecord(
    name: string,
    priority: Option<int>,
    files: seq<(string, string)>,
    fileSwaps: seq<(string, string)>,
    manipulations: seq<MetaManipulation>)

  /** Read name/value pairs up to and including the closing EndObject; returns the pairs and what follows. */
  function ReadEntries(ts: seq<Token>): Option<(seq<(string, string)>, seq<Token>)>
    decreases |ts|
  {
    if ts == [] then None
    else if ts[0] == EndObject then Some(([], ts[1..]))
    else if |ts| >= 2 && ts[0].PropertyName? && ts[1].StringValue? then
      match ReadEntries(ts[2..])
      case None => None
      case Some(r) => Some(([(ts[0].name, ts[1].value)] + r.0, r.1))
    else None
  }

  /** Read the swaps and manipulations that follow the files, up to the end of the object. */
  function ReadSwaps(ts: seq<Token>): Option<(seq<(string, string)>, seq<MetaManipulation>)> {
    if |ts| < 2 || ts[0] != PropertyName("FileSwaps") || ts[1] != StartObject then None
    else match ReadEntries(ts[2..])
      case None => None
      case Some(swaps) =>
        var r := swaps.1;
        if |r| == 3 && r[0] == PropertyName("Manipulations") && r[1].Serialized? && r[2] == EndObject
        then Some((swaps.0, r[1].manipulations))
        else None
  }

  /** Read the files, swaps and manipulations that follow the name and priority. */
  function ReadBody(ts: seq<Token>): Option<(seq<(string, string)>, seq<(string, string)>, seq<MetaManipulation>)> {
    if |ts| < 2 || ts[0] != PropertyName("Files") || ts[1] != StartObject then None
    else match ReadEntries(ts[2..])
      case None => None
      case Some(files) =>
        match ReadSwaps(files.1)
        case None => None
        case Some(rest) => Some((files.0, rest.0, rest.1))
  }

  /** Read one sub-mod object in the layout `WriteSubMod` uses. */
  function ReadSubMod(ts: seq<Token>): Option<SubModRecord> {
    if |ts| < 3 || ts[0] != StartObject || ts[1] != PropertyName("Name") || !ts[2].StringValue? then None
    else
      var hasPriority := |ts| >= 5 && ts[3] == PropertyName("Priority") && ts[4].IntValue?;
      var priority := if hasPriority then Some(ts[4].number) else None;
      match ReadBody(if hasPriority then ts[5..] else ts[3..])
      case None => None
      case Some(body) => Some(SubModRecord(ts[2].value, priority, body.0, body.1, body.2))
  }

  lemma {:induction false} ReadEntryTokens(pairs: seq<(string, string)>, rest: seq<Token>)
    ensures ReadEntries(EntryTokens(pairs) + [EndObject] + rest) == Some((pairs, rest))
    decreases |pairs|
  {
    if pairs == [] {
      assert EntryTokens(pairs) + [EndObject] + rest == [EndObject] + rest;
    } else {
      EntryTokensCons(pairs[0], pairs[1..]);
      assert [pairs[0]] + pairs[1..] == pairs;
      var ts := EntryTokens(pairs) + [EndObject] + rest;
      assert ts[2..] == EntryTokens(pairs[1..]) + [EndObject] + rest;
      ReadEntryTokens(pairs[1..], rest);
    }
  }

  /** Dropping a two-token header. */
  lemma DropHeader(a: Token, b: Token, entries: seq<Token>, rest: seq<Token>)
    ensures ([a, b] + entries + [EndObject] + rest)[2..] == entries + [EndObject] + rest
  {
    assert [a, b] + entries + [EndObject] + rest == [a, b] + (entries + [EndObject] + rest);
  }

  lemma ReadSwapsTokens(mod: SubMod)
    ensures ReadSwaps(SwapsTokens(mod)) == Some((SwapPairs(mod.fileSwaps), mod.manipulations))
  {
    var swaps := SwapPairs(mod.fileSwaps);
    DropHeader(PropertyName("FileSwaps"), StartObject, EntryTokens(swaps), ManipulationTokens(mod));
    ReadEntryTokens(swaps, ManipulationTokens(mod));
  }

  lemma ReadBodyTokens(mod: SubMod, relPath: FullPath -> Option<string>)
    ensures ReadBody(BodyTokens(mod, relPath)) ==
      Some((ConvertedFiles(mod.files, relPath), SwapPairs(mod.fileSwaps), mod.manipulations))
  {
    var files := ConvertedFiles(mod.files, relPath);
    DropHeader(PropertyName("Files"), StartObject, EntryTokens(files), SwapsTokens(mod));
    ReadEntryTokens(files, SwapsTokens(mod));
    ReadSwapsTokens(mod);
  }

  /**
   * Round trip: reading back what `WriteSubMod` wrote yields the option's
   * name, exactly the given priority (present iff non-null), the converted
   * files, every swap and the manipulations.
   */
  lemma SubModRoundTrip(mod: SubMod, priority: Option<int>, relPath: FullPath -> Option<string>)
    ensures ReadSubMod(SubModTokens(mod, priority, relPath)) ==
      Some(SubModRecord(mod.name, priority, ConvertedFiles(mod.files, relPath), SwapPairs(mod.fileSwaps), mod.manipulations))
  {
    var ts := SubModTokens(mod, priority, relPath);
    var body := BodyTokens(mod, relPath);
    ReadBodyTokens(mod, relPath);
    assert body[0] == PropertyName("Files");
    if priority.Some? {
      assert ts[5..] == body;
    } else {
      assert ts[3..] == body;
    }
  }

  /** A file gets a `Files` entry, keyed by its game path, exactly when its path converts. */
  lemma {:induction false} ConvertedFilesMembers(files: seq<(GamePath, FullPath)>, relPath: FullPath -> Option<string>,
                                                 key: string, value: string)
    ensures (key, value) in ConvertedFiles(files, relPath) <==>
      exists i :: 0 <= i < |files| && files[i].0.path == key && relPath(files[i].1) == Some(value)
    decreases |files|
  {
    if files != [] {
      var init := files[..|files| - 1];
      ConvertedFilesMembers(init, relPath, key, value);
      if exists i :: 0 <= i < |init| && init[i].0.path == key && relPath(init[i].1) == Some(value) {
        var i :| 0 <= i < |init| && init[i].0.path == key && relPath(init[i].1) == Some(value);
        assert files[i] == init[i];
      }
      if exists i :: 0 <= i < |files| && files[i].0.path == key && relPath(files[i].1) == Some(value) {
        var i :| 0 <= i < |files| && files[i].0.path == key && relPath(files[i].1) == Some(value);
        if i < |init| {
          assert init[i] == files[i];
        }
      }
    }
  }

  /** There are never more `Files` entries than files. */
  lemma {:induction false} ConvertedFilesBound(files: seq<(GamePath, FullPath)>, relPath: FullPath -> Option<string>)
    ensures |ConvertedFiles(files, relPath)| <= |files|
    ensures (forall i :: 0 <= i < |files| ==> relPath(files[i].1).Some?) ==> |ConvertedFiles(files, relPath)| == |files|
    decreases |files|
  {
    if files != [] {
      ConvertedFilesBound(files[..|files| - 1], relPath);
    }
  }
}
