/**
 * Migrating a mod's metadata from file version 0 to 1
 * (`Mod.Migration.MigrateV0ToV1`): the old option groups are converted to
 * new groups with priorities, single-option single-select groups are folded
 * into the default option, unused files and the old swaps go to the default
 * option.
 */
module ModMigration {
  import opened Common
  import opened Mods

  /** A version 0 option: its name and, per file relative to the mod directory, the game paths it serves. */
  datatype OptionV0 = OptionV0(optionName: string, optionFiles: seq<(string, seq<GamePath>)>)

  /** A version 0 option group. */
  datatype OptionGroupV0 = OptionGroupV0(groupName: string, selectionType: SelectType, options: seq<OptionV0>)

  // ---------------------------------------------------------------------
  // A sub-mod's file dictionary under `TryAdd`

  /** The file a dictionary in insertion order maps `g` to (its first entry for `g`). */
  function Lookup(files: seq<(GamePath, FullPath)>, g: GamePath): Option<FullPath>
    decreases |files|
  {
    if files == [] then None
    else if files[0].0 == g then Some(files[0].1)
    else Lookup(files[1..], g)
  }

  /** `Dictionary.TryAdd`: a new game path is appended, an existing one keeps its file. */
  function TryAdd(files: seq<(GamePath, FullPath)>, g: GamePath, f: FullPath): seq<(GamePath, FullPath)> {
    if Lookup(files, g).Some? then files else files + [(g, f)]
  }

  /** `TryAdd` for each pair in turn. */
  function TryAddAll(files: seq<(GamePath, FullPath)>, pairs: seq<(GamePath, FullPath)>): seq<(GamePath, FullPath)>
    decreases |pairs|
  {
    if pairs == [] then files else TryAddAll(TryAdd(files, pairs[0].0, pairs[0].1), pairs[1..])
  }

  /** A lookup in a concatenation finds the first part's entry if it has one. */
  lemma {:induction false} LookupConcat(a: seq<(GamePath, FullPath)>, b: seq<(GamePath, FullPath)>, g: GamePath)
    ensures Lookup(a + b, g) == if Lookup(a, g).Some? then Lookup(a, g) else Lookup(b, g)
    decreases |a|
  {
    if a == [] {
      assert a + b == b;
    } else {
      assert (a + b)[1..] == a[1..] + b;
      LookupConcat(a[1..], b, g);
    }
  }

  /** After `TryAdd`, the path maps to its old file if it had one, else to the new file; other paths are untouched. */
  lemma LookupTryAdd(files: seq<(GamePath, FullPath)>, g: GamePath, f: FullPath, x: GamePath)
    ensures Lookup(TryAdd(files, g, f), x) ==
      if Lookup(files, x).Some? then Lookup(files, x) else if x == g then Some(f) else None
  {
    if Lookup(files, g).None? {
      LookupConcat(files, [(g, f)], x);
      assert [(g, f)][1..] == [];
    }
  }

  /** `TryAddAll` keeps the first file each game path was given, the existing entries first of all. */
  lemma {:induction false} TryAddAllLookup(files: seq<(GamePath, FullPath)>, pairs: seq<(GamePath, FullPath)>, x: GamePath)
    ensures Lookup(TryAddAll(files, pairs), x) ==
      if Lookup(files, x).Some? then Lookup(files, x) else Lookup(pairs, x)
    decreases |pairs|
  {
    if pairs != [] {
      var next := TryAdd(files, pairs[0].0, pairs[0].1);
      TryAddAllLookup(next, pairs[1..], x);
      LookupTryAdd(files, pairs[0].0, pairs[0].1, x);
    }
  }

  /** `TryAdd` never gives a game path a second entry. */
  predicate UniqueKeys(files: seq<(GamePath, FullPath)>) {
    forall j, k :: 0 <= j < k < |files| ==> files[j].0 != files[k].0
  }

  lemma {:induction false} LookupNone(files: seq<(GamePath, FullPath)>, g: GamePath)
    ensures Lookup(files, g).None? <==> forall k :: 0 <= k < |files| ==> files[k].0 != g
    decreases |files|
  {
    if files != [] {
      LookupNone(files[1..], g);
      assert forall k :: 1 <= k < |files| ==> files[k] == files[1..][k - 1];
    }
  }

  lemma {:induction false} TryAddAllUnique(files: seq<(GamePath, FullPath)>, pairs: seq<(GamePath, FullPath)>)
    requires UniqueKeys(files)
    ensures UniqueKeys(TryAddAll(files, pairs))
    decreases |pairs|
  {
    if pairs != [] {
      LookupNone(files, pairs[0].0);
      TryAddAllUnique(TryAdd(files, pairs[0].0, pairs[0].1), pairs[1..]);
    }
  }

  lemma {:induction false} TryAddAllConcat(files: seq<(GamePath, FullPath)>, a: seq<(GamePath, FullPath)>, b: seq<(GamePath, FullPath)>)
    ensures TryAddAll(files, a + b) == TryAddAll(TryAddAll(files, a), b)
    decreases |a|
  {
    if a == [] {
      assert a + b == b;
    } else {
      assert (a + b)[0] == a[0] && (a + b)[1..] == a[1..] + b;
      TryAddAllConcat(TryAdd(files, a[0].0, a[0].1), a[1..], b);
    }
  }

  // ---------------------------------------------------------------------
  // The files of a version 0 option

  /** Every game path of one option file, each mapped to the file. */
  function FilePairs(gamePaths: seq<GamePath>, file: FullPath): (r: seq<(GamePath, FullPath)>)
    ensures |r| == |gamePaths|
    ensures forall k :: 0 <= k < |r| ==> r[k] == (gamePaths[k], file)
  {
    seq(|gamePaths|, k requires 0 <= k < |gamePaths| => (gamePaths[k], file))
  }

  /** The (game path, file) pairs of an option in the order the migration visits them; `locate` joins the mod directory. */
  function OptionPairs(optionFiles: seq<(string, seq<GamePath>)>, locate: string -> FullPath): seq<(GamePath, FullPath)>
    decreases |optionFiles|
  {
    if optionFiles == [] then []
    else FilePairs(optionFiles[0].1, locate(optionFiles[0].0)) + OptionPairs(optionFiles[1..], locate)
  }

  /** The file of the first option entry that lists game path `g`. */
  function FirstFileFor(optionFiles: seq<(string, seq<GamePath>)>, locate: string -> FullPath, g: GamePath): Option<FullPath>
    decreases |optionFiles|
  {
    if optionFiles == [] then None
    else if g in optionFiles[0].1 then Some(locate(optionFiles[0].0))
    else FirstFileFor(optionFiles[1..], locate, g)
  }

  lemma {:induction false} LookupFilePairs(gamePaths: seq<GamePath>, file: FullPath, g: GamePath)
    ensures Lookup(FilePairs(gamePaths, file), g) == if g in gamePaths then Some(file) else None
    decreases |gamePaths|
  {
    if gamePaths != [] {
      assert FilePairs(gamePaths, file)[1..] == FilePairs(gamePaths[1..], file);
      LookupFilePairs(gamePaths[1..], file, g);
      assert g in gamePaths <==> g == gamePaths[0] || g in gamePaths[1..];
    }
  }

  lemma {:induction false} LookupOptionPairs(optionFiles: seq<(string, seq<GamePath>)>, locate: string -> FullPath, g: GamePath)
    ensures Lookup(OptionPairs(optionFiles, locate), g) == FirstFileFor(optionFiles, locate, g)
    decreases |optionFiles|
  {
    if optionFiles != [] {
      var head := FilePairs(optionFiles[0].1, locate(optionFiles[0].0));
      LookupConcat(head, OptionPairs(optionFiles[1..], locate), g);
      LookupFilePairs(optionFiles[0].1, locate(optionFiles[0].0), g);
      LookupOptionPairs(optionFiles[1..], locate, g);
    }
  }

  /** Files with a `.meta` or `.rgsp` extension. */
  predicate IsMetaFile(f: FullPath)
    ensures IsMetaFile(f) <==>
      |f.fullName| >= 5 && (f.fullName[|f.fullName| - 5..] == ".meta" || f.fullName[|f.fullName| - 5..] == ".rgsp")
  {
    EndsWith(f.fullName, ".meta") || EndsWith(f.fullName, ".rgsp")
  }

  /** The meta files an option names. */
  function MetaFilesOf(optionFiles: seq<(string, seq<GamePath>)>, locate: string -> FullPath): set<FullPath> {
    set k | 0 <= k < |optionFiles| && IsMetaFile(locate(optionFiles[k].0)) :: locate(optionFiles[k].0)
  }

  lemma MetaFilesOfStep(optionFiles: seq<(string, seq<GamePath>)>, locate: string -> FullPath, i: int)
    requires 0 <= i < |optionFiles|
    ensures MetaFilesOf(optionFiles[..i + 1], locate) ==
      MetaFilesOf(optionFiles[..i], locate) + (if IsMetaFile(locate(optionFiles[i].0)) then {locate(optionFiles[i].0)} else {})
  {
    var a := MetaFilesOf(optionFiles[..i + 1], locate);
    var b := MetaFilesOf(optionFiles[..i], locate) + (if IsMetaFile(locate(optionFiles[i].0)) then {locate(optionFiles[i].0)} else {});
    forall f | f in a
      ensures f in b
    {
      var k :| 0 <= k < i + 1 && IsMetaFile(locate(optionFiles[..i + 1][k].0)) && f == locate(optionFiles[..i + 1][k].0);
      if k < i {
        assert optionFiles[..i][k] == optionFiles[k];
      }
    }
    forall f | f in MetaFilesOf(optionFiles[..i], locate)
      ensures f in a
    {
      var k :| 0 <= k < i && IsMetaFile(locate(optionFiles[..i][k].0)) && f == locate(optionFiles[..i][k].0);
      assert optionFiles[..i + 1][k] == optionFiles[k];
    }
    if IsMetaFile(locate(optionFiles[i].0)) {
      assert optionFiles[..i + 1][i] == optionFiles[i];
    }
  }

  /** Reading the files of a whole option into a dictionary with `TryAdd`. */
  lemma OptionFilesLookup(files: seq<(GamePath, FullPath)>, optionFiles: seq<(string, seq<GamePath>)>, locate: string -> FullPath)
    ensures forall g :: (Lookup(TryAddAll(files, OptionPairs(optionFiles, locate)), g) ==
      if Lookup(files, g).Some? then Lookup(files, g) else FirstFileFor(optionFiles, locate, g))
    ensures UniqueKeys(files) ==> UniqueKeys(TryAddAll(files, OptionPairs(optionFiles, locate)))
  {
    forall g
      ensures Lookup(TryAddAll(files, OptionPairs(optionFiles, locate)), g) ==
        if Lookup(files, g).Some? then Lookup(files, g) else FirstFileFor(optionFiles, locate, g)
    {
      TryAddAllLookup(files, OptionPairs(optionFiles, locate), g);
      LookupOptionPairs(optionFiles, locate, g);
    }
    if UniqueKeys(files) {
      TryAddAllUnique(files, OptionPairs(optionFiles, locate));
    }
  }

  /** The inner loop of `AddFilesToSubMod`: `TryAdd` of every game path of one file. */
  method AddGamePaths(files: seq<(GamePath, FullPath)>, gamePaths: seq<GamePath>, file: FullPath)
    returns (r: seq<(GamePath, FullPath)>)
    ensures r == TryAddAll(files, FilePairs(gamePaths, file))
  {
    r := files;
    var j := 0;
    while j < |gamePaths|
      invariant 0 <= j <= |gamePaths|
      invariant TryAddAll(r, FilePairs(gamePaths[j..], file)) == TryAddAll(files, FilePairs(gamePaths, file))
    {
      var pairs := FilePairs(gamePaths[j..], file);
      assert pairs[0] == (gamePaths[j], file);
      assert pairs[1..] == FilePairs(gamePaths[j + 1..], file);
      r := TryAdd(r, gamePaths[j], file);
      j := j + 1;
    }
    assert FilePairs(gamePaths[j..], file) == [];
  }

  /**
   * `AddFilesToSubMod`: every game path of every option file is offered to
   * the sub-mod's files with `TryAdd`, so a path keeps the first file it
   * had; `.meta` and `.rgsp` files are recorded as seen.
   */
  method AddFilesToSubMod(sub: SubMod, option: OptionV0, seen: set<FullPath>, locate: string -> FullPath)
    returns (r: SubMod, seen': set<FullPath>)
    ensures r == sub.(files := r.files)
    ensures r.files == TryAddAll(sub.files, OptionPairs(option.optionFiles, locate))
    ensures forall g :: (Lookup(r.files, g) ==
      if Lookup(sub.files, g).Some? then Lookup(sub.files, g) else FirstFileFor(option.optionFiles, locate, g))
    ensures UniqueKeys(sub.files) ==> UniqueKeys(r.files)
    ensures seen' == seen + MetaFilesOf(option.optionFiles, locate)
  {
    var ofs := option.optionFiles;
    var files := sub.files;
    seen' := seen;
    var i := 0;
    while i < |ofs|
      invariant 0 <= i <= |ofs|
      invariant TryAddAll(files, OptionPairs(ofs[i..], locate)) == TryAddAll(sub.files, OptionPairs(ofs, locate))
      invariant seen' == seen + MetaFilesOf(ofs[..i], locate)
    {
      var (relPath, gamePaths) := ofs[i];
      var fullPath := locate(relPath);
      assert ofs[i..][1..] == ofs[i + 1..];
      assert OptionPairs(ofs[i..], locate) == FilePairs(gamePaths, fullPath) + OptionPairs(ofs[i + 1..], locate);
      TryAddAllConcat(files, FilePairs(gamePaths, fullPath), OptionPairs(ofs[i + 1..], locate));
      files := AddGamePaths(files, gamePaths, fullPath);
      MetaFilesOfStep(ofs, locate, i);
      if IsMetaFile(fullPath) {
        seen' := seen' + {fullPath};
      }
      i := i + 1;
    }
    assert ofs[..i] == ofs;
    assert OptionPairs(ofs[i..], locate) == [];
    r := sub.(files := files);
    OptionFilesLookup(sub.files, ofs, locate);
  }

  /**
   * The sub-mod `SubModFromOption` builds before meta incorporation: named
   * after the option, each game path served by the first file that lists it,
   * no swaps and no manipulations.
   */
  function OptionSubMod(option: OptionV0, locate: string -> FullPath): (r: SubMod)
    ensures r.name == option.optionName && r.fileSwaps == [] && r.manipulations == []
    ensures forall g :: Lookup(r.files, g) == FirstFileFor(option.optionFiles, locate, g)
    ensures UniqueKeys(r.files)
  {
    OptionFilesLookup([], option.optionFiles, locate);
    SubMod(option.optionName, TryAddAll([], OptionPairs(option.optionFiles, locate)), [], [])
  }

  /**
   * `SubModFromOption`: the option's files are added to a new sub-mod, then
   * `IncorporateMetaChanges` turns its meta files into manipulations; that
   * step reads the files from disk and is the parameter `incorporate`.
   */
  method SubModFromOption(option: OptionV0, seen: set<FullPath>, locate: string -> FullPath, incorporate: SubMod -> SubMod)
    returns (r: SubMod, seen': set<FullPath>)
    ensures r == incorporate(OptionSubMod(option, locate))
    ensures seen' == seen + MetaFilesOf(option.optionFiles, locate)
  {
    var sub;
    sub, seen' := AddFilesToSubMod(SubMod(option.optionName, [], [], []), option, seen, locate);
    r := incorporate(sub);
  }

  /**
   * The option loop of `ConvertGroup`: every option becomes a sub-mod, in
   * order; a multi-select group's options get priorities 0, 1, 2, ...
   */
  method ConvertOptions(group: OptionGroupV0, seen: set<FullPath>, locate: string -> FullPath, incorporate: SubMod -> SubMod)
    returns (options: seq<GroupOption>, seen': set<FullPath>)
    ensures options == GroupOptions(group, locate, incorporate)
    ensures seen' == seen + OptionsMetaFiles(group.options, locate)
    ensures forall f :: f in seen' ==> f in seen || IsMetaFile(f)
  {
    options := [];
    seen' := seen;
    var optionPriority := 0;
    while optionPriority < |group.options|
      invariant 0 <= optionPriority <= |group.options|
      invariant seen' == seen + OptionsMetaFiles(group.options[..optionPriority], locate)
      invariant options == GroupOptions(group, locate, incorporate)[..optionPriority]
    {
      var sub;
      ghost var seenBefore := seen';
      sub, seen' := SubModFromOption(group.options[optionPriority], seen', locate, incorporate);
      OptionsMetaFilesAfter(seen, seenBefore, seen', group.options, optionPriority, locate);
      ghost var before := options;
      options := options + [GroupOption(sub, if group.selectionType == Multi then optionPriority else 0)];
      GroupOptionsStep(before, options, group, optionPriority, sub, locate, incorporate);
      optionPriority := optionPriority + 1;
    }
    assert group.options[..optionPriority] == group.options;
    assert GroupOptions(group, locate, incorporate)[..optionPriority] == GroupOptions(group, locate, incorporate);
  }

  /** Whether converting a group creates a new group: it has options and is not a single-select group of one. */
  predicate CreatesGroup(group: OptionGroupV0) {
    |group.options| > 0 && !(group.selectionType == Single && |group.options| == 1)
  }

  /** How many of the groups create a new group. */
  function CreatedGroups(groups: seq<OptionGroupV0>): (r: nat)
    ensures r <= |groups|
    decreases |groups|
  {
    if groups == [] then 0
    else CreatedGroups(groups[..|groups| - 1]) + (if CreatesGroup(groups[|groups| - 1]) then 1 else 0)
  }

  /**
   * The options of a converted group: the k-th version 0 option's sub-mod
   * after meta incorporation, with priority k in a multi-select group and 0
   * in a single-select one.
   */
  function GroupOptions(group: OptionGroupV0, locate: string -> FullPath, incorporate: SubMod -> SubMod): (r: seq<GroupOption>)
    ensures |r| == |group.options|
    ensures forall k :: 0 <= k < |r| ==>
      r[k].subMod == incorporate(OptionSubMod(group.options[k], locate))
      && r[k].priority == (if group.selectionType == Multi then k else 0)
  {
    seq(|group.options|, k requires 0 <= k < |group.options| =>
      GroupOption(incorporate(OptionSubMod(group.options[k], locate)), if group.selectionType == Multi then k else 0))
  }

  /** The options converted so far, one option further. */
  lemma GroupOptionsStep(before: seq<GroupOption>, after: seq<GroupOption>, group: OptionGroupV0, p: int, sub: SubMod,
                         locate: string -> FullPath, incorporate: SubMod -> SubMod)
    requires 0 <= p < |group.options|
    requires before == GroupOptions(group, locate, incorporate)[..p]
    requires sub == incorporate(OptionSubMod(group.options[p], locate))
    requires after == before + [GroupOption(sub, if group.selectionType == Multi then p else 0)]
    ensures after == GroupOptions(group, locate, incorporate)[..p + 1]
  {
    var all := GroupOptions(group, locate, incorporate);
    assert all[..p + 1] == all[..p] + [all[p]];
  }

  /**
   * The groups the group loop appends, in order: one per group that creates
   * a group, carrying its name, its kind, the next priority counting from 1,
   * and its converted options.
   */
  function NewGroups(groups: seq<OptionGroupV0>, locate: string -> FullPath, incorporate: SubMod -> SubMod): (r: seq<ModGroup>)
    ensures |r| == CreatedGroups(groups)
    ensures forall k :: 0 <= k < |r| ==> r[k].priority == k + 1
    decreases |groups|
  {
    if groups == [] then []
    else
      var init, g := groups[..|groups| - 1], groups[|groups| - 1];
      NewGroups(init, locate, incorporate)
        + (if CreatesGroup(g) then [ModGroup(g.groupName, g.selectionType, CreatedGroups(init) + 1, GroupOptions(g, locate, incorporate))]
           else [])
  }

  /** A single-select group of exactly one option is folded into the default option. */
  predicate FoldsIntoDefault(group: OptionGroupV0) {
    group.selectionType == Single && |group.options| == 1
  }

  /** The pairs the folded groups offer the default option, group by group. */
  function FoldedPairs(groups: seq<OptionGroupV0>, locate: string -> FullPath): seq<(GamePath, FullPath)>
    decreases |groups|
  {
    if groups == [] then []
    else
      var g := groups[|groups| - 1];
      FoldedPairs(groups[..|groups| - 1], locate) + (if FoldsIntoDefault(g) then OptionPairs(g.options[0].optionFiles, locate) else [])
  }

  /** The meta files named by the options. */
  function OptionsMetaFiles(options: seq<OptionV0>, locate: string -> FullPath): (r: set<FullPath>)
    ensures forall f :: f in r ==> IsMetaFile(f)
    decreases |options|
  {
    if options == [] then {}
    else OptionsMetaFiles(options[..|options| - 1], locate) + MetaFilesOf(options[|options| - 1].optionFiles, locate)
  }

  /** `OptionsMetaFiles`, one option further. */
  lemma OptionsMetaFilesStep(options: seq<OptionV0>, i: int, locate: string -> FullPath)
    requires 0 <= i < |options|
    ensures OptionsMetaFiles(options[..i + 1], locate) == OptionsMetaFiles(options[..i], locate) + MetaFilesOf(options[i].optionFiles, locate)
  {
    assert options[..i + 1][..i] == options[..i];
  }

  /** The files seen while converting the options so far, one option further. */
  lemma OptionsMetaFilesAfter(seen: set<FullPath>, before: set<FullPath>, after: set<FullPath>, options: seq<OptionV0>, i: int,
                              locate: string -> FullPath)
    requires 0 <= i < |options|
    requires before == seen + OptionsMetaFiles(options[..i], locate)
    requires after == before + MetaFilesOf(options[i].optionFiles, locate)
    ensures after == seen + OptionsMetaFiles(options[..i + 1], locate)
  {
    OptionsMetaFilesStep(options, i, locate);
  }

  /** The meta files named by any option of the groups: the files the group loop marks as seen. */
  function GroupsMetaFiles(groups: seq<OptionGroupV0>, locate: string -> FullPath): (r: set<FullPath>)
    ensures forall f :: f in r ==> IsMetaFile(f)
    decreases |groups|
  {
    if groups == [] then {}
    else GroupsMetaFiles(groups[..|groups| - 1], locate) + OptionsMetaFiles(groups[|groups| - 1].options, locate)
  }

  /** The folds over the version 0 groups, one group further. */
  lemma GroupsPrefixStep(groupList: seq<OptionGroupV0>, i: int, locate: string -> FullPath, incorporate: SubMod -> SubMod)
    requires 0 <= i < |groupList|
    ensures CreatedGroups(groupList[..i + 1]) == CreatedGroups(groupList[..i]) + (if CreatesGroup(groupList[i]) then 1 else 0)
    ensures NewGroups(groupList[..i + 1], locate, incorporate) == NewGroups(groupList[..i], locate, incorporate)
      + (if CreatesGroup(groupList[i])
         then [ModGroup(groupList[i].groupName, groupList[i].selectionType, CreatedGroups(groupList[..i]) + 1,
                        GroupOptions(groupList[i], locate, incorporate))]
         else [])
    ensures FoldedPairs(groupList[..i + 1], locate) == FoldedPairs(groupList[..i], locate)
      + (if FoldsIntoDefault(groupList[i]) then OptionPairs(groupList[i].options[0].optionFiles, locate) else [])
    ensures GroupsMetaFiles(groupList[..i + 1], locate) == GroupsMetaFiles(groupList[..i], locate) + OptionsMetaFiles(groupList[i].options, locate)
  {
    assert groupList[..i + 1][..i] == groupList[..i];
    assert groupList[..i + 1][i] == groupList[i];
  }

  /** The groups appended so far, one group further. */
  lemma NewGroupsAfter(start: seq<ModGroup>, before: seq<ModGroup>, after: seq<ModGroup>, groupList: seq<OptionGroupV0>, i: int,
                       locate: string -> FullPath, incorporate: SubMod -> SubMod)
    requires 0 <= i < |groupList|
    requires before == start + NewGroups(groupList[..i], locate, incorporate)
    requires CreatesGroup(groupList[i]) ==>
      after == before + [ModGroup(groupList[i].groupName, groupList[i].selectionType, CreatedGroups(groupList[..i]) + 1,
                                  GroupOptions(groupList[i], locate, incorporate))]
    requires !CreatesGroup(groupList[i]) ==> after == before
    ensures after == start + NewGroups(groupList[..i + 1], locate, incorporate)
  {
    GroupsPrefixStep(groupList, i, locate, incorporate);
  }

  /** The default option's files after the groups folded into it so far, one group further. */
  lemma FoldedPairsAfter(start: seq<(GamePath, FullPath)>, before: seq<(GamePath, FullPath)>, after: seq<(GamePath, FullPath)>,
                         groupList: seq<OptionGroupV0>, i: int, locate: string -> FullPath)
    requires 0 <= i < |groupList|
    requires before == TryAddAll(start, FoldedPairs(groupList[..i], locate))
    requires FoldsIntoDefault(groupList[i]) ==> after == TryAddAll(before, OptionPairs(groupList[i].options[0].optionFiles, locate))
    requires !FoldsIntoDefault(groupList[i]) ==> after == before
    ensures after == TryAddAll(start, FoldedPairs(groupList[..i + 1], locate))
  {
    GroupsPrefixStep(groupList, i, locate, (sub: SubMod) => sub);
    var added := if FoldsIntoDefault(groupList[i]) then OptionPairs(groupList[i].options[0].optionFiles, locate) else [];
    TryAddAllConcat(start, FoldedPairs(groupList[..i], locate), added);
  }

  /**
   * The pairs the unused-file loop offers the default option: each unused
   * file that was not seen and maps to a game path, in order.
   */
  function UnusedPairs(unusedFiles: seq<FullPath>, seen: set<FullPath>, toGamePath: FullPath -> Option<GamePath>)
    : seq<(GamePath, FullPath)>
    decreases |unusedFiles|
  {
    if unusedFiles == [] then []
    else
      var init, f := unusedFiles[..|unusedFiles| - 1], unusedFiles[|unusedFiles| - 1];
      UnusedPairs(init, seen, toGamePath) + (if f !in seen && toGamePath(f).Some? then [(toGamePath(f).value, f)] else [])
  }

  /** The unused pairs are exactly the pairs of the unused, unseen files that map to a game path. */
  lemma {:induction false} UnusedPairsMembers(unusedFiles: seq<FullPath>, seen: set<FullPath>, toGamePath: FullPath -> Option<GamePath>)
    ensures forall k :: 0 <= k < |UnusedPairs(unusedFiles, seen, toGamePath)| ==>
      var p := UnusedPairs(unusedFiles, seen, toGamePath)[k];
      p.1 in unusedFiles && p.1 !in seen && toGamePath(p.1) == Some(p.0)
    ensures forall f :: f in unusedFiles && f !in seen && toGamePath(f).Some? ==>
      (toGamePath(f).value, f) in UnusedPairs(unusedFiles, seen, toGamePath)
    decreases |unusedFiles|
  {
    if unusedFiles != [] {
      var init, f := unusedFiles[..|unusedFiles| - 1], unusedFiles[|unusedFiles| - 1];
      UnusedPairsMembers(init, seen, toGamePath);
      assert forall x :: x in unusedFiles <==> x in init || x == f;
    }
  }

  /**
   * Offering the unused pairs keeps every existing entry and gives a file to
   * the game path of every unused, unseen file that has one.
   */
  lemma UnusedPairsAdded(files: seq<(GamePath, FullPath)>, unusedFiles: seq<FullPath>, seen: set<FullPath>,
                         toGamePath: FullPath -> Option<GamePath>)
    ensures forall g :: Lookup(files, g).Some? ==>
      Lookup(TryAddAll(files, UnusedPairs(unusedFiles, seen, toGamePath)), g) == Lookup(files, g)
    ensures forall f :: f in unusedFiles && f !in seen && toGamePath(f).Some? ==>
      Lookup(TryAddAll(files, UnusedPairs(unusedFiles, seen, toGamePath)), toGamePath(f).value).Some?
  {
    var pairs := UnusedPairs(unusedFiles, seen, toGamePath);
    UnusedPairsMembers(unusedFiles, seen, toGamePath);
    forall g | Lookup(files, g).Some?
      ensures Lookup(TryAddAll(files, pairs), g) == Lookup(files, g)
    {
      TryAddAllLookup(files, pairs, g);
    }
    forall f | f in unusedFiles && f !in seen && toGamePath(f).Some?
      ensures Lookup(TryAddAll(files, pairs), toGamePath(f).value).Some?
    {
      var k :| 0 <= k < |pairs| && pairs[k] == (toGamePath(f).value, f);
      LookupNone(pairs, toGamePath(f).value);
      TryAddAllLookup(files, pairs, toGamePath(f).value);
    }
  }

  /** One more unused file extends the pairs by that file's pair, if it offers one. */
  lemma UnusedPairsStep(unusedFiles: seq<FullPath>, u: nat, seen: set<FullPath>, toGamePath: FullPath -> Option<GamePath>)
    requires u < |unusedFiles|
    ensures UnusedPairs(unusedFiles[..u + 1], seen, toGamePath) ==
      UnusedPairs(unusedFiles[..u], seen, toGamePath)
        + (if unusedFiles[u] !in seen && toGamePath(unusedFiles[u]).Some? then [(toGamePath(unusedFiles[u]).value, unusedFiles[u])] else [])
  {
    assert unusedFiles[..u + 1][..u] == unusedFiles[..u];
  }

  /** The default option's files after the unused files offered so far, one file further. */
  lemma UnusedPairsAfter(start: seq<(GamePath, FullPath)>, before: seq<(GamePath, FullPath)>, after: seq<(GamePath, FullPath)>,
                         unusedFiles: seq<FullPath>, u: nat, seen: set<FullPath>, toGamePath: FullPath -> Option<GamePath>)
    requires u < |unusedFiles|
    requires before == TryAddAll(start, UnusedPairs(unusedFiles[..u], seen, toGamePath))
    requires unusedFiles[u] !in seen && toGamePath(unusedFiles[u]).Some? ==>
      after == TryAdd(before, toGamePath(unusedFiles[u]).value, unusedFiles[u])
    requires !(unusedFiles[u] !in seen && toGamePath(unusedFiles[u]).Some?) ==> after == before
    ensures after == TryAddAll(start, UnusedPairs(unusedFiles[..u + 1], seen, toGamePath))
  {
    UnusedPairsStep(unusedFiles, u, seen, toGamePath);
    var done := UnusedPairs(unusedFiles[..u], seen, toGamePath);
    var f := unusedFiles[u];
    if f !in seen && toGamePath(f).Some? {
      TryAddAllConcat(start, done, [(toGamePath(f).value, f)]);
      TryAddAllSingle(before, toGamePath(f).value, f);
    } else {
      assert UnusedPairs(unusedFiles[..u + 1], seen, toGamePath) == done;
    }
  }

  lemma TryAddAllSingle(files: seq<(GamePath, FullPath)>, g: GamePath, f: FullPath)
    ensures TryAddAll(files, [(g, f)]) == TryAdd(files, g, f)
  {
    assert [(g, f)][1..] == [];
  }

  /** The state of a mod being migrated (`Mod`): its file version, its groups and its default option. */
  class Mod {
    const fileVersion: int
    var groups: seq<ModGroup>
    var defaultOption: SubMod

    constructor (fileVersion: int, groups: seq<ModGroup>, defaultOption: SubMod)
      ensures this.fileVersion == fileVersion && this.groups == groups && this.defaultOption == defaultOption
    {
      this.fileVersion := fileVersion;
      this.groups := groups;
      this.defaultOption := defaultOption;
    }

    /**
     * `ConvertGroup`: skip an empty group; fold a single-select group of one
     * option into the default option; otherwise append a group with the
     * next priority, whose options keep their order (a multi-select group's
     * options get priorities 0, 1, 2, ...).  `priority` is the counter
     * passed by reference.
     */
    method ConvertGroup(group: OptionGroupV0, priority: int, seen: set<FullPath>, locate: string -> FullPath,
                        incorporate: SubMod -> SubMod)
      returns (nextPriority: int, seen': set<FullPath>)
      modifies this
      ensures nextPriority == priority + (if CreatesGroup(group) then 1 else 0)
      ensures seen' == seen + OptionsMetaFiles(group.options, locate)
      ensures forall f :: f in seen' ==> f in seen || IsMetaFile(f)
      ensures !CreatesGroup(group) ==> groups == old(groups)
      ensures |group.options| == 0 ==> defaultOption == old(defaultOption) && seen' == seen
      ensures group.selectionType == Single && |group.options| == 1 ==>
        defaultOption == old(defaultOption).(files := TryAddAll(old(defaultOption).files, OptionPairs(group.options[0].optionFiles, locate)))
        && seen' == seen + MetaFilesOf(group.options[0].optionFiles, locate)
      ensures CreatesGroup(group) ==>
        defaultOption == old(defaultOption)
        && groups == old(groups) + [ModGroup(group.groupName, group.selectionType, priority, GroupOptions(group, locate, incorporate))]
    {
      seen' := seen;
      nextPriority := priority;
      if |group.options| == 0 {
        return;
      }
      if group.selectionType == Single && |group.options| == 1 {
        defaultOption, seen' := AddFilesToSubMod(defaultOption, group.options[0], seen', locate);
        assert group.options[..0] == [];
        return;
      }
      nextPriority := priority + 1;
      var options;
      options, seen' := ConvertOptions(group, seen', locate, incorporate);
      groups := groups + [ModGroup(group.groupName, group.selectionType, priority, options)];
    }

    /** The group loop of `MigrateV0ToV1`: convert every group, priorities counting from 1. */
    method ConvertGroups(groupList: seq<OptionGroupV0>, locate: string -> FullPath, incorporate: SubMod -> SubMod)
      returns (seen: set<FullPath>)
      modifies this
      ensures |groups| == |old(groups)| + CreatedGroups(groupList)
      ensures groups[..|old(groups)|] == old(groups)
      ensures forall k :: |old(groups)| <= k < |groups| ==> groups[k].priority == k - |old(groups)| + 1
      ensures forall f :: f in seen ==> IsMetaFile(f)
      ensures defaultOption == old(defaultOption).(files := defaultOption.files)
      ensures forall g :: Lookup(old(defaultOption).files, g).Some? ==>
        Lookup(defaultOption.files, g) == Lookup(old(defaultOption).files, g)
      ensures groups == old(groups) + NewGroups(groupList, locate, incorporate)
      ensures defaultOption.files == TryAddAll(old(defaultOption).files, FoldedPairs(groupList, locate))
      ensures seen == GroupsMetaFiles(groupList, locate)
    {
      var priority := 1;
      seen := {};
      var i := 0;
      while i < |groupList|
        invariant 0 <= i <= |groupList|
        invariant priority == CreatedGroups(groupList[..i]) + 1
        invariant seen == GroupsMetaFiles(groupList[..i], locate)
        invariant defaultOption == old(defaultOption).(files := defaultOption.files)
        invariant groups == old(groups) + NewGroups(groupList[..i], locate, incorporate)
        invariant defaultOption.files == TryAddAll(old(defaultOption).files, FoldedPairs(groupList[..i], locate))
      {
        GroupsPrefixStep(groupList, i, locate, incorporate);
        ghost var groupsBefore, filesBefore := groups, defaultOption.files;
        priority, seen := ConvertGroup(groupList[i], priority, seen, locate, incorporate);
        NewGroupsAfter(old(groups), groupsBefore, groups, groupList, i, locate, incorporate);
        FoldedPairsAfter(old(defaultOption).files, filesBefore, defaultOption.files, groupList, i, locate);
        i := i + 1;
      }
      assert groupList[..i] == groupList;
      forall g | Lookup(old(defaultOption).files, g).Some?
        ensures Lookup(defaultOption.files, g) == Lookup(old(defaultOption).files, g)
      {
        TryAddAllLookup(old(defaultOption).files, FoldedPairs(groupList, locate), g);
      }
    }

    /**
     * The unused-file loop of `MigrateV0ToV1`: every file not seen as a meta
     * file that maps to a game path is added to the default option; a path
     * that is already taken keeps its file (the source logs an error).
     */
    method AddUnusedFiles(unusedFiles: seq<FullPath>, seen: set<FullPath>, toGamePath: FullPath -> Option<GamePath>)
      modifies this
      ensures groups == old(groups) && defaultOption == old(defaultOption).(files := defaultOption.files)
      ensures defaultOption.files == TryAddAll(old(defaultOption).files, UnusedPairs(unusedFiles, seen, toGamePath))
      ensures forall f :: f in unusedFiles && f !in seen && toGamePath(f).Some? ==>
        Lookup(defaultOption.files, toGamePath(f).value).Some?
      ensures forall g :: Lookup(old(defaultOption).files, g).Some? ==>
        Lookup(defaultOption.files, g) == Lookup(old(defaultOption).files, g)
    {
      var u := 0;
      while u < |unusedFiles|
        invariant 0 <= u <= |unusedFiles|
        invariant groups == old(groups) && defaultOption == old(defaultOption).(files := defaultOption.files)
        invariant defaultOption.files == TryAddAll(old(defaultOption).files, UnusedPairs(unusedFiles[..u], seen, toGamePath))
      {
        var unusedFile := unusedFiles[u];
        ghost var before := defaultOption.files;
        if unusedFile !in seen {
          var gamePath := toGamePath(unusedFile);
          if gamePath.Some? {
            defaultOption := defaultOption.(files := TryAdd(defaultOption.files, gamePath.value, unusedFile));
          }
        }
        UnusedPairsAfter(old(defaultOption).files, before, defaultOption.files, unusedFiles, u, seen, toGamePath);
        u := u + 1;
      }
      assert unusedFiles[..u] == unusedFiles;
      UnusedPairsAdded(old(defaultOption).files, unusedFiles, seen, toGamePath);
    }

    /**
     * `MigrateV0ToV1`: nothing for a mod already past version 0.  Otherwise
     * convert the groups with a priority counter starting at 1, give every
     * unused file that was not seen as a meta file to the default option
     * (when it maps to a game path), make the old swaps the default option's
     * swaps, and finally incorporate the default option's meta files
     * (`incorporate`).  `preMeta` is the default option just before that
     * last step.  Missing JSON properties read as empty.
     */
    method MigrateV0ToV1(swaps: Option<seq<(GamePath, FullPath)>>, groupsV0: Option<seq<OptionGroupV0>>,
                         unusedFiles: seq<FullPath>, toGamePath: FullPath -> Option<GamePath>, locate: string -> FullPath,
                         incorporate: SubMod -> SubMod)
      returns (migrated: bool, ghost preMeta: SubMod)
      modifies this
      ensures migrated <==> fileVersion <= 0
      ensures !migrated ==> groups == old(groups) && defaultOption == old(defaultOption)
      ensures migrated ==> defaultOption == incorporate(preMeta)
      ensures migrated ==> preMeta.name == old(defaultOption).name && preMeta.manipulations == old(defaultOption).manipulations
      ensures migrated ==> preMeta.fileSwaps == (if swaps.Some? then swaps.value else [])
      ensures migrated ==> |groups| == |old(groups)| + CreatedGroups(if groupsV0.Some? then groupsV0.value else [])
      ensures migrated ==> groups[..|old(groups)|] == old(groups)
      ensures migrated ==> forall k :: |old(groups)| <= k < |groups| ==> groups[k].priority == k - |old(groups)| + 1
      ensures migrated ==> forall f :: f in unusedFiles && !IsMetaFile(f) && toGamePath(f).Some? ==>
        Lookup(preMeta.files, toGamePath(f).value).Some?
      ensures migrated ==> forall g :: Lookup(old(defaultOption).files, g).Some? ==>
        Lookup(preMeta.files, g) == Lookup(old(defaultOption).files, g)
      ensures migrated ==> groups == old(groups) + NewGroups(if groupsV0.Some? then groupsV0.value else [], locate, incorporate)
      ensures migrated ==> (preMeta.files ==
        TryAddAll(TryAddAll(old(defaultOption).files, FoldedPairs(if groupsV0.Some? then groupsV0.value else [], locate)),
                  UnusedPairs(unusedFiles, GroupsMetaFiles(if groupsV0.Some? then groupsV0.value else [], locate), toGamePath)))
    {
      preMeta := defaultOption;
      if fileVersion > 0 {
        return false, preMeta;
      }
      var seen := ConvertGroups(if groupsV0.Some? then groupsV0.value else [], locate, incorporate);
      AddUnusedFiles(unusedFiles, seen, toGamePath);
      var prepared := defaultOption.(fileSwaps := if swaps.Some? then swaps.value else []);
      preMeta := prepared;
      defaultOption := incorporate(prepared);
      migrated := true;
    }
  }
}
