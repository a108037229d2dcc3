/**
 * Values and pure functions behind the collection cache
 * (`ModCollection.Cache`): redirections, conflict records, the conflict-list
 * arena, the changed-items index and the reference definitions the cache's
 * methods are proved against.
 *
 * The source shares one `List<object>` between the two conflict records of a
 * pair of mods; here every conflict list lives in an arena `lists` and each
 * record holds the index (`listId`) of its list.
 */
module CacheSpec {
  import opened Common
  import opened MetaManipulations
  import opened Mods

  newtype Int32 = x: int | -0x8000_0000 <= x < 0x8000_0000

  /** The winning mod of a game path and the file it redirects to. */
  datatype ModPath = ModPath(mod: IMod, path: FullPath)

  /** An item two mods contend for: a game path or a meta manipulation (by its key). */
  datatype ConflictItem = PathItem(path: GamePath) | MetaItem(key: ManipKey)

  /** One side of a conflict between two mods. */
  datatype ModConflicts = ModConflicts(mod2: IMod, listId: nat, hasPriority: bool, solved: bool)

  /** The object an identified item carries: null, a boxed 32-bit integer or anything else. */
  datatype ItemObject = NullObject | IntObject(value: Int32) | OtherObject(tag: int)

  /** One changed-items entry: the mods touching the item and its object. */
  datatype ChangedItem = ChangedItem(mods: seq<IMod>, obj: ItemObject)

  /** `Utf8GamePath.MaxGamePathLength`. */
  const MaxGamePathLength: nat := 256

  /**
   * The priority `AddConflict` uses: the collection setting for an installed
   * mod, the mod's own priority for a temporary one; None where the source
   * throws (no settings, or an index past the settings list).
   */
  function PriorityOf(mod: IMod, coll: seq<Option<ModSettings>>): (r: Option<int>)
    ensures mod.index < 0 ==> r == Some(mod.priority)
    ensures 0 <= mod.index < |coll| && coll[mod.index].Some? ==> r == Some(coll[mod.index].value.priority)
    ensures r.None? <==> mod.index >= 0 && (mod.index >= |coll| || coll[mod.index].None?)
  {
    if mod.index < 0 then Some(mod.priority)
    else if mod.index < |coll| && coll[mod.index].Some? then Some(coll[mod.index].value.priority)
    else None
  }

  // ---------------------------------------------------------------------
  // Conflict lists and their arena

  /** `List.RemoveAll(x => x.Equals(d))`. */
  function Without(l: seq<ConflictItem>, d: ConflictItem): (r: seq<ConflictItem>)
    ensures multiset(r)[d] == 0
    ensures forall x :: x != d ==> multiset(r)[x] == multiset(l)[x]
    decreases |l|
  {
    if l == [] then []
    else
      assert l == [l[0]] + l[1..];
      (if l[0] == d then [] else [l[0]]) + Without(l[1..], d)
  }

  /** How often `d` occurs over all conflict lists. */
  function Occurrences(lists: seq<seq<ConflictItem>>, d: ConflictItem): nat
    decreases |lists|
  {
    if lists == [] then 0
    else Occurrences(lists[..|lists| - 1], d) + multiset(lists[|lists| - 1])[d]
  }

  lemma {:induction false} OccurrencesUpdate(lists: seq<seq<ConflictItem>>, id: nat, l: seq<ConflictItem>, d: ConflictItem)
    requires id < |lists|
    ensures Occurrences(lists[id := l], d) == Occurrences(lists, d) - multiset(lists[id])[d] + multiset(l)[d]
    decreases |lists|
  {
    var n := |lists| - 1;
    if id == n {
      assert lists[id := l][..n] == lists[..n];
    } else {
      OccurrencesUpdate(lists[..n], id, l, d);
      assert lists[id := l][..n] == lists[..n][id := l];
    }
  }

  lemma OccurrencesAppend(lists: seq<seq<ConflictItem>>, l: seq<ConflictItem>, d: ConflictItem)
    ensures Occurrences(lists + [l], d) == Occurrences(lists, d) + multiset(l)[d]
  {
    assert (lists + [l])[..|lists|] == lists;
  }

  /** Every record of every mod names a list of the arena. */
  predicate ListIdsOk(conf: map<IMod, seq<ModConflicts>>, n: nat) {
    forall a, i :: a in conf && 0 <= i < |conf[a]| ==> conf[a][i].listId < n
  }

  predicate RecordsOk(recs: seq<ModConflicts>, n: nat) {
    forall i :: 0 <= i < |recs| ==> recs[i].listId < n
  }

  /** `Conflicts(mod)`: the records of `mod`, empty when it has none. */
  function RecordsOf(conf: map<IMod, seq<ModConflicts>>, mod: IMod): (r: seq<ModConflicts>)
    ensures mod !in conf ==> r == []
  {
    if mod in conf then conf[mod] else []
  }

  lemma RecordsOfOk(conf: map<IMod, seq<ModConflicts>>, mod: IMod, n: nat)
    requires ListIdsOk(conf, n)
    ensures RecordsOk(RecordsOf(conf, mod), n)
  {
  }

  /** Store the records of `mod`, dropping its key when none are left. */
  function SetRecords(conf: map<IMod, seq<ModConflicts>>, mod: IMod, recs: seq<ModConflicts>): (r: map<IMod, seq<ModConflicts>>)
    ensures RecordsOf(r, mod) == recs
    ensures mod in r <==> recs != []
    ensures forall a :: a != mod ==> (a in r <==> a in conf) && RecordsOf(r, a) == RecordsOf(conf, a)
  {
    if recs == [] then conf - {mod} else conf[mod := recs]
  }

  lemma SetRecordsOk(conf: map<IMod, seq<ModConflicts>>, mod: IMod, recs: seq<ModConflicts>, n: nat)
    requires ListIdsOk(conf, n) && RecordsOk(recs, n)
    ensures ListIdsOk(SetRecords(conf, mod, recs), n)
  {
    var r: map<IMod, seq<ModConflicts>> := SetRecords(conf, mod, recs);
    forall a: IMod, i: int | a in r && 0 <= i < |r[a]|
      ensures r[a][i].listId < n
    {
      if a != mod {
        assert r[a] == RecordsOf(r, a) == RecordsOf(conf, a);
      }
    }
  }

  lemma ListIdsGrow(conf: map<IMod, seq<ModConflicts>>, n: nat, m: nat)
    requires ListIdsOk(conf, n) && n <= m
    ensures ListIdsOk(conf, m)
  {
  }

  /** The index of the first record naming `mod2`, or -1 (`SingleArray.FindFirst`). */
  function FindPartner(recs: seq<ModConflicts>, mod2: IMod): (r: int)
    ensures -1 <= r < |recs|
    ensures r >= 0 ==> recs[r].mod2 == mod2
    ensures forall i :: 0 <= i < |recs| && (r < 0 || i < r) ==> recs[i].mod2 != mod2
    decreases |recs|
  {
    if recs == [] then -1
    else if recs[0].mod2 == mod2 then 0
    else
      var k := FindPartner(recs[1..], mod2);
      if k < 0 then -1 else k + 1
  }

  /** `SingleArray.Remove(c => c.Mod2 == mod)`. */
  function RemovePartner(recs: seq<ModConflicts>, mod: IMod): (r: seq<ModConflicts>)
    ensures forall c :: c in r <==> c in recs && c.mod2 != mod
    ensures |r| <= |recs|
    decreases |recs|
  {
    if recs == [] then []
    else (if recs[0].mod2 == mod then [] else [recs[0]]) + RemovePartner(recs[1..], mod)
  }

  lemma RemovePartnerOk(recs: seq<ModConflicts>, mod: IMod, n: nat)
    requires RecordsOk(recs, n)
    ensures RecordsOk(RemovePartner(recs, mod), n)
  {
    var r := RemovePartner(recs, mod);
    forall i | 0 <= i < |r|
      ensures r[i].listId < n
    {
      assert r[i] in recs;
    }
  }

  /** The records of `recs` whose list is non-empty, in order. */
  function KeepNonEmpty(recs: seq<ModConflicts>, lists: seq<seq<ConflictItem>>): (r: seq<ModConflicts>)
    requires RecordsOk(recs, |lists|)
    decreases |recs|
  {
    if recs == [] then []
    else
      var n := |recs| - 1;
      KeepNonEmpty(recs[..n], lists) + (if lists[recs[n].listId] != [] then [recs[n]] else [])
  }

  /** What `RemoveEmptyConflicts` keeps: exactly the records whose shared list is non-empty. */
  lemma {:induction false} KeepNonEmptyIsFilter(recs: seq<ModConflicts>, lists: seq<seq<ConflictItem>>)
    requires RecordsOk(recs, |lists|)
    ensures RecordsOk(KeepNonEmpty(recs, lists), |lists|)
    ensures forall c :: c in KeepNonEmpty(recs, lists) <==> c in recs && lists[c.listId] != []
    decreases |recs|
  {
    if recs != [] {
      var n := |recs| - 1;
      KeepNonEmptyIsFilter(recs[..n], lists);
      assert recs == recs[..n] + [recs[n]];
    }
  }

  /**
   * The transitive part of `RemoveEmptyConflicts`: for each record of `recs`
   * whose list is empty, in order, the partner's records are cut down to
   * those with non-empty lists.
   */
  function DropEmptyPartners(conf: map<IMod, seq<ModConflicts>>, recs: seq<ModConflicts>, lists: seq<seq<ConflictItem>>): map<IMod, seq<ModConflicts>>
    requires RecordsOk(recs, |lists|) && ListIdsOk(conf, |lists|)
    ensures ListIdsOk(DropEmptyPartners(conf, recs, lists), |lists|)
    decreases |recs|
  {
    if recs == [] then conf
    else
      var n := |recs| - 1;
      var prev := DropEmptyPartners(conf, recs[..n], lists);
      if lists[recs[n].listId] == [] then
        var partner := recs[n].mod2;
        RecordsOfOk(prev, partner, |lists|);
        KeepNonEmptyIsFilter(RecordsOf(prev, partner), lists);
        SetRecordsOk(prev, partner, KeepNonEmpty(RecordsOf(prev, partner), lists), |lists|);
        SetRecords(prev, partner, KeepNonEmpty(RecordsOf(prev, partner), lists))
      else prev
  }

  /** After the transitive clean-up no partner of an emptied record keeps an empty record. */
  lemma {:induction false} DropEmptyPartnersClears(conf: map<IMod, seq<ModConflicts>>, recs: seq<ModConflicts>, lists: seq<seq<ConflictItem>>, k: nat)
    requires RecordsOk(recs, |lists|) && ListIdsOk(conf, |lists|)
    requires k < |recs| && lists[recs[k].listId] == []
    ensures forall c :: c in RecordsOf(DropEmptyPartners(conf, recs, lists), recs[k].mod2) ==> lists[c.listId] != []
    decreases |recs|
  {
    var n := |recs| - 1;
    var prev := DropEmptyPartners(conf, recs[..n], lists);
    RecordsOfOk(prev, recs[n].mod2, |lists|);
    KeepNonEmptyIsFilter(RecordsOf(prev, recs[n].mod2), lists);
    if k < n {
      DropEmptyPartnersClears(conf, recs[..n], lists, k);
      RecordsOfOk(prev, recs[k].mod2, |lists|);
      KeepNonEmptyIsFilter(RecordsOf(prev, recs[k].mod2), lists);
    }
  }

  // ---------------------------------------------------------------------
  // Symmetry of the conflict graph

  /** `s`, a record of `r.mod2`, is the mirror image of record `r` of `owner`. */
  predicate Mirrors(r: ModConflicts, owner: IMod, s: ModConflicts) {
    s.mod2 == owner && s.listId == r.listId && s.hasPriority == !r.hasPriority && s.solved == r.solved
  }

  ghost predicate HasMirror(conf: map<IMod, seq<ModConflicts>>, owner: IMod, r: ModConflicts) {
    r.mod2 in conf && exists j :: 0 <= j < |conf[r.mod2]| && Mirrors(r, owner, conf[r.mod2][j])
  }

  /** Every record has its mirror image on the other mod's side, sharing the list. */
  ghost predicate Symmetric(conf: map<IMod, seq<ModConflicts>>) {
    forall a, i :: a in conf && 0 <= i < |conf[a]| ==> HasMirror(conf, a, conf[a][i])
  }

  /** The two records `AddConflict` creates for a new pair, both pointing to list `id`. */
  function AddPair(conf: map<IMod, seq<ModConflicts>>, added: IMod, existing: IMod, id: nat, ep: int, ap: int): map<IMod, seq<ModConflicts>>
  {
    var addedRecs := RecordsOf(conf, added);
    var existingRecs := RecordsOf(conf, existing);
    conf[added := addedRecs + [ModConflicts(existing, id, ep < ap, ep != ap)]]
        [existing := existingRecs + [ModConflicts(added, id, ep >= ap, ep != ap)]]
  }

  /** A new pair on a fresh list `id` keeps every list id in range, and `added` ends with its record for `existing`. */
  lemma AddPairFacts(conf: map<IMod, seq<ModConflicts>>, added: IMod, existing: IMod, id: nat, ep: int, ap: int)
    requires ListIdsOk(conf, id)
    ensures ListIdsOk(AddPair(conf, added, existing, id, ep, ap), id + 1)
    ensures var rs := RecordsOf(AddPair(conf, added, existing, id, ep, ap), added);
      |rs| > 0 && rs[|rs| - 1].mod2 == existing && rs[|rs| - 1].listId == id
  {
    RecordsOfOk(conf, added, id);
    RecordsOfOk(conf, existing, id);
    var r := AddPair(conf, added, existing, id, ep, ap);
    var rs := RecordsOf(r, added);
    if added == existing {
      assert rs[|rs| - 1] == ModConflicts(added, id, ep >= ap, ep != ap);
    } else {
      assert rs[|rs| - 1] == ModConflicts(existing, id, ep < ap, ep != ap);
    }
  }

  /** Adding a new pair of mirrored records keeps the conflict graph symmetric. */
  lemma AddPairKeepsSymmetry(conf: map<IMod, seq<ModConflicts>>, added: IMod, existing: IMod, id: nat, ep: int, ap: int)
    requires Symmetric(conf) && added != existing
    ensures Symmetric(AddPair(conf, added, existing, id, ep, ap))
  {
    var r := AddPair(conf, added, existing, id, ep, ap);
    assert forall x, j :: x in conf && 0 <= j < |conf[x]| ==> x in r && j < |r[x]| && r[x][j] == conf[x][j];
    forall a: IMod, i: int | a in r && 0 <= i < |r[a]|
      ensures HasMirror(r, a, r[a][i])
    {
      if a == added && i == |r[a]| - 1 {
        assert Mirrors(r[a][i], a, r[existing][|r[existing]| - 1]);
      } else if a == existing && i == |r[a]| - 1 {
        assert Mirrors(r[a][i], a, r[added][|r[added]| - 1]);
      } else {
        assert a in conf && r[a][i] == conf[a][i];
        var c := conf[a][i];
        assert HasMirror(conf, a, c);
        var j :| 0 <= j < |conf[c.mod2]| && Mirrors(c, a, conf[c.mod2][j]);
        assert r[c.mod2][j] == conf[c.mod2][j];
      }
    }
  }

  /** The new pair shares one list and records complementary priority and equal solved flags. */
  lemma AddPairMirrored(conf: map<IMod, seq<ModConflicts>>, added: IMod, existing: IMod, id: nat, ep: int, ap: int)
    requires added != existing
    ensures var r := AddPair(conf, added, existing, id, ep, ap);
      var a := RecordsOf(r, added)[|RecordsOf(r, added)| - 1];
      var e := RecordsOf(r, existing)[|RecordsOf(r, existing)| - 1];
      a.mod2 == existing && e.mod2 == added && a.listId == e.listId == id
      && a.hasPriority == (ep < ap) && e.hasPriority == !a.hasPriority
      && a.solved == e.solved == (ep != ap)
  {
  }

  // ---------------------------------------------------------------------
  // Ownership

  /** Between `before` and `after` only `mod` claimed paths; none were dropped. */
  predicate FilesClaimedBy(before: map<GamePath, ModPath>, after: map<GamePath, ModPath>, mod: IMod) {
    before.Keys <= after.Keys
    && forall p :: p in after ==> (p in before && after[p] == before[p]) || after[p].mod == mod
  }

  /** Between `before` and `after` only `mod` claimed manipulations; none were dropped. */
  predicate MetaClaimedBy(before: map<ManipKey, IMod>, after: map<ManipKey, IMod>, mod: IMod) {
    before.Keys <= after.Keys
    && forall k :: k in after ==> (k in before && after[k] == before[k]) || after[k] == mod
  }

  lemma FilesClaimedTrans(a: map<GamePath, ModPath>, b: map<GamePath, ModPath>, c: map<GamePath, ModPath>, mod: IMod)
    requires FilesClaimedBy(a, b, mod) && FilesClaimedBy(b, c, mod)
    ensures FilesClaimedBy(a, c, mod)
  {
  }

  lemma MetaClaimedTrans(a: map<ManipKey, IMod>, b: map<ManipKey, IMod>, c: map<ManipKey, IMod>, mod: IMod)
    requires MetaClaimedBy(a, b, mod) && MetaClaimedBy(b, c, mod)
    ensures MetaClaimedBy(a, c, mod)
  {
  }

  function PathsOf(files: seq<(GamePath, FullPath)>): set<GamePath> {
    set e | e in files :: e.0
  }

  function KeysOf(manips: seq<MetaManipulation>): set<ManipKey> {
    set m | m in manips :: Key(m)
  }

  // ---------------------------------------------------------------------
  // Offering paths and manipulation keys to a mod (`AddFile`, `AddManipulation`)

  /** `AddConflict`'s test: `mod` takes an item from `holder` when both have a priority and the holder's is lower. */
  predicate Wins(holder: IMod, mod: IMod, coll: seq<Option<ModSettings>>) {
    PriorityOf(holder, coll).Some? && PriorityOf(mod, coll).Some?
    && PriorityOf(holder, coll).value < PriorityOf(mod, coll).value
  }

  /** The mod a redirection belongs to. */
  function HolderOfPath(mp: ModPath): IMod {
    mp.mod
  }

  /** The mod a manipulation key belongs to. */
  function HolderOfKey(m: IMod): IMod {
    m
  }

  /**
   * One offer of `v` for item `k` by `mod`: an unclaimed item is taken, an
   * item `mod` already holds is kept, and another holder's item is taken iff
   * `mod` wins it.
   */
  function OfferOne<K(==), V>(owners: map<K, V>, k: K, v: V, holderOf: V -> IMod, mod: IMod, coll: seq<Option<ModSettings>>)
    : map<K, V>
  {
    if k !in owners then owners[k := v]
    else if holderOf(owners[k]) != mod && Wins(holderOf(owners[k]), mod, coll) then owners[k := v]
    else owners
  }

  /** The offers made one after the other, in order. */
  function OfferAll<K(==), V>(owners: map<K, V>, offers: seq<(K, V)>, holderOf: V -> IMod, mod: IMod, coll: seq<Option<ModSettings>>)
    : map<K, V>
    decreases |offers|
  {
    if offers == [] then owners
    else
      var last := offers[|offers| - 1];
      OfferOne(OfferAll(owners, offers[..|offers| - 1], holderOf, mod, coll), last.0, last.1, holderOf, mod, coll)
  }

  /** The items the offers name. */
  function OfferedKeys<K, V>(offers: seq<(K, V)>): set<K>
    decreases |offers|
  {
    if offers == [] then {} else OfferedKeys(offers[..|offers| - 1]) + {offers[|offers| - 1].0}
  }

  /** The value of the earliest offer for `k`. */
  function FirstOffer<K(==), V>(offers: seq<(K, V)>, k: K): V
    requires k in OfferedKeys(offers)
    decreases |offers|
  {
    var init := offers[..|offers| - 1];
    if k in OfferedKeys(init) then FirstOffer(init, k) else offers[|offers| - 1].1
  }

  /** `mod` ends up holding an offered item unless the old holder is `mod` itself or outranks it. */
  predicate Kept<K(==), V>(owners: map<K, V>, k: K, holderOf: V -> IMod, mod: IMod, coll: seq<Option<ModSettings>>) {
    k in owners && (holderOf(owners[k]) == mod || !Wins(holderOf(owners[k]), mod, coll))
  }

  /** The earliest offer for `k` is one of the offers. */
  lemma {:induction false} FirstOfferIsOffered<K, V>(offers: seq<(K, V)>, k: K)
    requires k in OfferedKeys(offers)
    ensures exists i :: 0 <= i < |offers| && offers[i] == (k, FirstOffer(offers, k))
    decreases |offers|
  {
    var init := offers[..|offers| - 1];
    if k in OfferedKeys(init) {
      FirstOfferIsOffered(init, k);
      var i :| 0 <= i < |init| && init[i] == (k, FirstOffer(init, k));
      assert offers[i] == init[i];
    }
  }

  /**
   * The outcome of a series of offers by one mod, item by item: the first
   * offer for an item decides it, by the three cases of `OfferOne`; later
   * offers of the same item find it held by `mod` or by a mod that outranks
   * it, and change nothing; items not offered are untouched.
   */
  lemma {:induction false} OfferAllOutcome<K, V>(owners: map<K, V>, offers: seq<(K, V)>, holderOf: V -> IMod, mod: IMod,
                                                     coll: seq<Option<ModSettings>>, k: K)
    requires forall i :: 0 <= i < |offers| ==> holderOf(offers[i].1) == mod
    ensures k in OfferAll(owners, offers, holderOf, mod, coll) <==> k in owners || k in OfferedKeys(offers)
    ensures k in owners && k !in OfferedKeys(offers) ==> OfferAll(owners, offers, holderOf, mod, coll)[k] == owners[k]
    ensures k in OfferedKeys(offers) ==>
      OfferAll(owners, offers, holderOf, mod, coll)[k]
        == if Kept(owners, k, holderOf, mod, coll) then owners[k] else FirstOffer(offers, k)
    decreases |offers|
  {
    if offers != [] {
      var init, last := offers[..|offers| - 1], offers[|offers| - 1];
      assert forall i :: 0 <= i < |init| ==> init[i] == offers[i];
      OfferAllOutcome(owners, init, holderOf, mod, coll, k);
      var before := OfferAll(owners, init, holderOf, mod, coll);
      if k == last.0 && k in OfferedKeys(init) {
        // `before[k]` is held by `mod` or by a mod that outranks it
        assert holderOf(FirstOffer(init, k)) == mod by {
          FirstOfferIsOffered(init, k);
        }
      }
    }
  }

  /** Offering `a` and then `b` is offering `a + b`. */
  lemma {:induction false} OfferAllConcat<K, V>(owners: map<K, V>, a: seq<(K, V)>, b: seq<(K, V)>, holderOf: V -> IMod,
                                                    mod: IMod, coll: seq<Option<ModSettings>>)
    ensures OfferAll(owners, a + b, holderOf, mod, coll) == OfferAll(OfferAll(owners, a, holderOf, mod, coll), b, holderOf, mod, coll)
    decreases |b|
  {
    if b == [] {
      assert a + b == a;
    } else {
      assert (a + b)[..|a + b| - 1] == a + b[..|b| - 1];
      OfferAllConcat(owners, a, b[..|b| - 1], holderOf, mod, coll);
    }
  }

  /** The offers an option's redirections make for `mod`. */
  function FileOffers(files: seq<(GamePath, FullPath)>, mod: IMod): (r: seq<(GamePath, ModPath)>)
    ensures |r| == |files|
    ensures forall i :: 0 <= i < |r| ==> r[i] == (files[i].0, ModPath(mod, files[i].1))
  {
    seq(|files|, i requires 0 <= i < |files| => (files[i].0, ModPath(mod, files[i].1)))
  }

  /** The offers an option's manipulations make for `mod`. */
  function KeyOffers(manips: seq<MetaManipulation>, mod: IMod): (r: seq<(ManipKey, IMod)>)
    ensures |r| == |manips|
    ensures forall i :: 0 <= i < |r| ==> r[i] == (Key(manips[i]), mod)
  {
    seq(|manips|, i requires 0 <= i < |manips| => (Key(manips[i]), mod))
  }

  /** `resolvedFiles` after `AddFile` of each redirection, when every call succeeds. */
  function OfferFiles(rf: map<GamePath, ModPath>, files: seq<(GamePath, FullPath)>, mod: IMod, coll: seq<Option<ModSettings>>)
    : map<GamePath, ModPath>
  {
    OfferAll(rf, FileOffers(files, mod), HolderOfPath, mod, coll)
  }

  /** `metaOwners` after `AddManipulation` of each manipulation, when every call succeeds. */
  function OfferKeys(mo: map<ManipKey, IMod>, manips: seq<MetaManipulation>, mod: IMod, coll: seq<Option<ModSettings>>)
    : map<ManipKey, IMod>
  {
    OfferAll(mo, KeyOffers(manips, mod), HolderOfKey, mod, coll)
  }

  /** One more `AddFile` extends `OfferFiles` by one redirection. */
  lemma OfferFilesStep(rf: map<GamePath, ModPath>, before: map<GamePath, ModPath>, after: map<GamePath, ModPath>,
                       files: seq<(GamePath, FullPath)>, i: nat, mod: IMod, coll: seq<Option<ModSettings>>)
    requires i < |files|
    requires before == OfferFiles(rf, files[..i], mod, coll)
    requires after == OfferOne(before, files[i].0, ModPath(mod, files[i].1), HolderOfPath, mod, coll)
    ensures after == OfferFiles(rf, files[..i + 1], mod, coll)
  {
    assert FileOffers(files[..i + 1], mod)[..i] == FileOffers(files[..i], mod);
  }

  /** One more `AddManipulation` extends `OfferKeys` by one manipulation. */
  lemma OfferKeysStep(mo: map<ManipKey, IMod>, before: map<ManipKey, IMod>, after: map<ManipKey, IMod>,
                      manips: seq<MetaManipulation>, j: nat, mod: IMod, coll: seq<Option<ModSettings>>)
    requires j < |manips|
    requires before == OfferKeys(mo, manips[..j], mod, coll)
    requires after == OfferOne(before, Key(manips[j]), mod, HolderOfKey, mod, coll)
    ensures after == OfferKeys(mo, manips[..j + 1], mod, coll)
  {
    assert KeyOffers(manips[..j + 1], mod)[..j] == KeyOffers(manips[..j], mod);
  }

  /** The redirections with the entries of `mod` among `paths` taken out. */
  function ReleasedFiles(rf: map<GamePath, ModPath>, mod: IMod, paths: set<GamePath>): (r: map<GamePath, ModPath>)
    ensures forall p :: p in r <==> p in rf && !(p in paths && rf[p].mod == mod)
    ensures forall p :: p in r ==> r[p] == rf[p]
    ensures forall p :: p in paths && p in r ==> r[p].mod != mod
  {
    map p | p in rf && !(p in paths && rf[p].mod == mod) :: rf[p]
  }

  /** The meta owners with the entries of `mod` among `keys` taken out. */
  function ReleasedMeta(mo: map<ManipKey, IMod>, mod: IMod, keys: set<ManipKey>): (r: map<ManipKey, IMod>)
    ensures forall k :: k in r <==> k in mo && !(k in keys && mo[k] == mod)
    ensures forall k :: k in r ==> r[k] == mo[k]
    ensures forall k :: k in keys && k in r ==> r[k] != mod
  {
    map k | k in mo && !(k in keys && mo[k] == mod) :: mo[k]
  }

  /** Releasing one more path takes out at most that path. */
  lemma ReleasedFilesStep(rf: map<GamePath, ModPath>, mod: IMod, paths: set<GamePath>, p: GamePath)
    ensures var r := ReleasedFiles(rf, mod, paths);
      ReleasedFiles(rf, mod, paths + {p}) == if p in r && r[p].mod == mod then r - {p} else r
  {
  }

  /** Releasing one more key takes out at most that key. */
  lemma ReleasedMetaStep(mo: map<ManipKey, IMod>, mod: IMod, keys: set<ManipKey>, k: ManipKey)
    ensures var r := ReleasedMeta(mo, mod, keys);
      ReleasedMeta(mo, mod, keys + {k}) == if k in r && r[k] == mod then r - {k} else r
  {
  }

  /** The paths of a list grown by one entry. */
  lemma PathsOfSnoc(files: seq<(GamePath, FullPath)>, e: (GamePath, FullPath))
    ensures PathsOf(files + [e]) == PathsOf(files) + {e.0}
  {
  }

  /** The keys of a list grown by one manipulation. */
  lemma KeysOfSnoc(manips: seq<MetaManipulation>, m: MetaManipulation)
    ensures KeysOf(manips + [m]) == KeysOf(manips) + {Key(m)}
  {
  }

  // ---------------------------------------------------------------------
  // Changed items

  /** The object of an entry seen again: the sum when both are integers, otherwise the new one. */
  function MergeObject(obj: ItemObject, prev: ItemObject): ItemObject {
    if obj.IntObject? && prev.IntObject? then IntObject(AddInt32(obj.value as int, prev.value as int) as Int32)
    else obj
  }

  /** Record that `mod` touches item `name` with object `obj`. */
  function NoteItem(items: map<string, ChangedItem>, mod: IMod, name: string, obj: ItemObject): (r: map<string, ChangedItem>)
    ensures r.Keys == items.Keys + {name}
    ensures forall n :: n in items && n != name ==> r[n] == items[n]
    ensures name !in items ==> r[name].mods == [mod]
    ensures name in items ==> r[name].mods == (if mod in items[name].mods then items[name].mods else items[name].mods + [mod])
    ensures name !in items ==> r[name].obj == obj
    ensures name in items && obj.IntObject? && items[name].obj.IntObject? ==>
      r[name].obj == IntObject(AddInt32(obj.value as int, items[name].obj.value as int) as Int32)
    ensures name in items && !(obj.IntObject? && items[name].obj.IntObject?) ==>
      r[name].obj == (if mod in items[name].mods then items[name].obj else obj)
  {
    if name !in items then items[name := ChangedItem([mod], obj)]
    else
      var d := items[name];
      if mod !in d.mods then items[name := ChangedItem(d.mods + [mod], MergeObject(obj, d.obj))]
      else if obj.IntObject? && d.obj.IntObject? then items[name := ChangedItem(d.mods, MergeObject(obj, d.obj))]
      else items
  }

  function NoteAll(items: map<string, ChangedItem>, mod: IMod, found: seq<(string, ItemObject)>): map<string, ChangedItem>
    decreases |found|
  {
    if found == [] then items
    else
      var n := |found| - 1;
      NoteItem(NoteAll(items, mod, found[..n]), mod, found[n].0, found[n].1)
  }

  /** Paths of IMC files are left out of the changed items. */
  predicate IsImcPath(p: GamePath) {
    EndsWith(p.path, "imc")
  }

  /** The changed-items index built from the redirections `entries`, in enumeration order. */
  function CollectItems(entries: seq<(GamePath, ModPath)>, identify: GamePath -> seq<(string, ItemObject)>): map<string, ChangedItem>
    decreases |entries|
  {
    if entries == [] then map[]
    else
      var n := |entries| - 1;
      var prev := CollectItems(entries[..n], identify);
      if IsImcPath(entries[n].0) then prev
      else NoteAll(prev, entries[n].1.mod, identify(entries[n].0))
  }

  /** Item `name` is identified from a non-IMC path among `entries` and `mod` wins that path. */
  ghost predicate Touches(entries: seq<(GamePath, ModPath)>, identify: GamePath -> seq<(string, ItemObject)>, name: string, mod: IMod) {
    exists i, j :: 0 <= i < |entries| && !IsImcPath(entries[i].0) && entries[i].1.mod == mod
      && 0 <= j < |identify(entries[i].0)| && identify(entries[i].0)[j].0 == name
  }

  predicate NoDuplicates(s: seq<IMod>) {
    forall i, j :: 0 <= i < j < |s| ==> s[i] != s[j]
  }

  /** The item names in an identification result. */
  function FoundNames(found: seq<(string, ItemObject)>): set<string> {
    set j | 0 <= j < |found| :: found[j].0
  }

  lemma FoundNamesStep(found: seq<(string, ItemObject)>)
    requires found != []
    ensures FoundNames(found) == FoundNames(found[..|found| - 1]) + {found[|found| - 1].0}
  {
    var n := |found| - 1;
    forall name | name in FoundNames(found)
      ensures name in FoundNames(found[..n]) + {found[n].0}
    {
      var j :| 0 <= j < |found| && found[j].0 == name;
      if j < n {
        assert found[..n][j].0 == name;
      }
    }
    forall name | name in FoundNames(found[..n])
      ensures name in FoundNames(found)
    {
      var j :| 0 <= j < n && found[..n][j].0 == name;
      assert found[j].0 == name;
    }
  }

  /** `items` is `before` with `mod` noted for every name in `names`. */
  ghost predicate ItemsDescribe(items: map<string, ChangedItem>, before: map<string, ChangedItem>, mod: IMod, names: set<string>) {
    && items.Keys == before.Keys + names
    && (forall name, m :: name in items && m in items[name].mods <==>
          (name in before && m in before[name].mods) || (m == mod && name in names))
    && (forall name :: name in items ==> NoDuplicates(items[name].mods))
  }

  lemma NoteItemDescribes(items: map<string, ChangedItem>, before: map<string, ChangedItem>, mod: IMod, names: set<string>, name: string, obj: ItemObject)
    requires ItemsDescribe(items, before, mod, names)
    ensures ItemsDescribe(NoteItem(items, mod, name, obj), before, mod, names + {name})
  {
    var r := NoteItem(items, mod, name, obj);
    if name in items && mod !in items[name].mods {
      assert NoDuplicates(items[name].mods + [mod]);
    }
    forall n2, m
      ensures n2 in r && m in r[n2].mods <==> (n2 in before && m in before[n2].mods) || (m == mod && n2 in names + {name})
    {
      if n2 != name && n2 in items {
        assert r[n2] == items[n2];
      }
    }
  }

  lemma {:induction false} NoteAllDescribes(before: map<string, ChangedItem>, mod: IMod, found: seq<(string, ItemObject)>)
    requires forall name :: name in before ==> NoDuplicates(before[name].mods)
    ensures ItemsDescribe(NoteAll(before, mod, found), before, mod, FoundNames(found))
    decreases |found|
  {
    if found == [] {
      assert FoundNames(found) == {};
    } else {
      var n := |found| - 1;
      NoteAllDescribes(before, mod, found[..n]);
      FoundNamesStep(found);
      NoteItemDescribes(NoteAll(before, mod, found[..n]), before, mod, FoundNames(found[..n]), found[n].0, found[n].1);
    }
  }

  lemma TouchesStep(entries: seq<(GamePath, ModPath)>, identify: GamePath -> seq<(string, ItemObject)>, name: string, m: IMod)
    requires entries != []
    ensures var n := |entries| - 1;
      Touches(entries, identify, name, m) <==>
        Touches(entries[..n], identify, name, m)
        || (!IsImcPath(entries[n].0) && entries[n].1.mod == m && name in FoundNames(identify(entries[n].0)))
  {
    var n := |entries| - 1;
    if Touches(entries, identify, name, m) {
      var i, j :| 0 <= i < |entries| && !IsImcPath(entries[i].0) && entries[i].1.mod == m
        && 0 <= j < |identify(entries[i].0)| && identify(entries[i].0)[j].0 == name;
      if i < n {
        assert entries[..n][i] == entries[i];
        assert Touches(entries[..n], identify, name, m);
      }
    }
    if Touches(entries[..n], identify, name, m) {
      var i, j :| 0 <= i < n && !IsImcPath(entries[..n][i].0) && entries[..n][i].1.mod == m
        && 0 <= j < |identify(entries[..n][i].0)| && identify(entries[..n][i].0)[j].0 == name;
      assert entries[..n][i] == entries[i];
    }
    if !IsImcPath(entries[n].0) && entries[n].1.mod == m && name in FoundNames(identify(entries[n].0)) {
      var j :| 0 <= j < |identify(entries[n].0)| && identify(entries[n].0)[j].0 == name;
    }
  }

  /**
   * The changed-items index lists for each item exactly the mods winning a
   * non-IMC path the item is identified from, and lists no mod twice.
   */
  lemma {:induction false} CollectItemsSpec(entries: seq<(GamePath, ModPath)>, identify: GamePath -> seq<(string, ItemObject)>)
    ensures forall name, m ::
      (name in CollectItems(entries, identify) && m in CollectItems(entries, identify)[name].mods) <==> Touches(entries, identify, name, m)
    ensures forall name :: name in CollectItems(entries, identify) ==> NoDuplicates(CollectItems(entries, identify)[name].mods)
    ensures forall name :: name in CollectItems(entries, identify) ==> |CollectItems(entries, identify)[name].mods| > 0
    decreases |entries|
  {
    if entries != [] {
      var n := |entries| - 1;
      var prev := CollectItems(entries[..n], identify);
      CollectItemsSpec(entries[..n], identify);
      var items := CollectItems(entries, identify);
      var p := entries[n].0;
      var mod := entries[n].1.mod;
      if !IsImcPath(p) {
        NoteAllDescribes(prev, mod, identify(p));
        forall name | name in items
          ensures |items[name].mods| > 0
        {
          if name !in prev {
            assert name in FoundNames(identify(p));
            assert mod in items[name].mods;
          } else {
            assert prev[name].mods[0] in items[name].mods;
          }
        }
      }
      forall name, m
        ensures name in items && m in items[name].mods <==> Touches(entries, identify, name, m)
      {
        TouchesStep(entries, identify, name, m);
      }
    }
  }

  /** Each item is named exactly when it is identified from some non-IMC path. */
  lemma ItemNamedIffIdentified(entries: seq<(GamePath, ModPath)>, identify: GamePath -> seq<(string, ItemObject)>, name: string)
    ensures name in CollectItems(entries, identify) <==> exists m :: Touches(entries, identify, name, m)
  {
    CollectItemsSpec(entries, identify);
    var items := CollectItems(entries, identify);
    if name in items {
      var m := items[name].mods[0];
      assert m in items[name].mods;
      assert Touches(entries, identify, name, m);
    }
  }

  // ---------------------------------------------------------------------
  // Striking a removed mod from its partners

  /** The partners named by `recs`. */
  function Partners(recs: seq<ModConflicts>): set<IMod> {
    set c | c in recs :: c.mod2
  }

  /** For each record of `recs`, in order, strike `mod` from that partner's records. */
  function StrikePartners(conf: map<IMod, seq<ModConflicts>>, recs: seq<ModConflicts>, mod: IMod): map<IMod, seq<ModConflicts>>
    decreases |recs|
  {
    if recs == [] then conf
    else
      var n := |recs| - 1;
      var prev := StrikePartners(conf, recs[..n], mod);
      SetRecords(prev, recs[n].mod2, RemovePartner(RecordsOf(prev, recs[n].mod2), mod))
  }

  /** One more record struck: the partner of `recs[i]` loses its records against `mod`. */
  lemma StrikePartnersNext(conf: map<IMod, seq<ModConflicts>>, recs: seq<ModConflicts>, i: nat, mod: IMod)
    requires i < |recs|
    ensures var prev := StrikePartners(conf, recs[..i], mod);
      StrikePartners(conf, recs[..i + 1], mod) == SetRecords(prev, recs[i].mod2, RemovePartner(RecordsOf(prev, recs[i].mod2), mod))
  {
    assert recs[..i + 1][..i] == recs[..i];
  }

  lemma {:induction false} RemovePartnerIdempotent(recs: seq<ModConflicts>, mod: IMod)
    ensures RemovePartner(RemovePartner(recs, mod), mod) == RemovePartner(recs, mod)
    decreases |recs|
  {
    if recs != [] {
      RemovePartnerIdempotent(recs[1..], mod);
      var rest := RemovePartner(recs[1..], mod);
      if recs[0].mod2 != mod {
        var once := [recs[0]] + rest;
        assert RemovePartner(recs, mod) == once;
        assert once[0] == recs[0] && once[1..] == rest;
        assert RemovePartner(once, mod) == [recs[0]] + RemovePartner(rest, mod);
      } else {
        assert RemovePartner(recs, mod) == [] + rest == rest;
      }
    }
  }

  /** Striking changes exactly the partners' records, each losing its records about `mod`. */
  lemma {:induction false} StrikePartnersPointwise(conf: map<IMod, seq<ModConflicts>>, recs: seq<ModConflicts>, mod: IMod, a: IMod)
    ensures RecordsOf(StrikePartners(conf, recs, mod), a) ==
      (if a in Partners(recs) then RemovePartner(RecordsOf(conf, a), mod) else RecordsOf(conf, a))
    ensures a in StrikePartners(conf, recs, mod) <==>
      (if a in Partners(recs) then RemovePartner(RecordsOf(conf, a), mod) != [] else a in conf)
    decreases |recs|
  {
    if recs != [] {
      var n := |recs| - 1;
      StrikePartnersPointwise(conf, recs[..n], mod, a);
      assert recs == recs[..n] + [recs[n]];
      assert Partners(recs) == Partners(recs[..n]) + {recs[n].mod2};
      if a == recs[n].mod2 && a in Partners(recs[..n]) {
        RemovePartnerIdempotent(RecordsOf(conf, a), mod);
      }
    }
  }

  lemma StrikePartnersOk(conf: map<IMod, seq<ModConflicts>>, recs: seq<ModConflicts>, mod: IMod, n: nat)
    requires ListIdsOk(conf, n)
    ensures ListIdsOk(StrikePartners(conf, recs, mod), n)
  {
    var r: map<IMod, seq<ModConflicts>> := StrikePartners(conf, recs, mod);
    forall a: IMod, i: int | a in r && 0 <= i < |r[a]|
      ensures r[a][i].listId < n
    {
      StrikePartnersPointwise(conf, recs, mod, a);
      assert r[a] == RecordsOf(r, a);
      RecordsOfOk(conf, a, n);
      if a in Partners(recs) {
        RemovePartnerOk(RecordsOf(conf, a), mod, n);
      }
    }
  }

  lemma StruckRecordOrigin(conf: map<IMod, seq<ModConflicts>>, mod: IMod, a: IMod, x: ModConflicts)
    requires x in RecordsOf(StrikePartners(conf - {mod}, RecordsOf(conf, mod), mod), a)
    ensures a != mod && a in conf && x in conf[a]
    ensures a in Partners(RecordsOf(conf, mod)) ==> x.mod2 != mod
  {
    StrikePartnersPointwise(conf - {mod}, RecordsOf(conf, mod), mod, a);
  }

  lemma SurvivesStrike(conf: map<IMod, seq<ModConflicts>>, mod: IMod, b: IMod, s: ModConflicts)
    requires b != mod && b in conf && s in conf[b] && s.mod2 != mod
    ensures var r := StrikePartners(conf - {mod}, RecordsOf(conf, mod), mod);
      b in r && s in r[b]
  {
    StrikePartnersPointwise(conf - {mod}, RecordsOf(conf, mod), mod, b);
  }

  /** One record left after striking `mod`: it does not name `mod` and its mirror survives. */
  lemma StrikeKeepsMirror(conf: map<IMod, seq<ModConflicts>>, mod: IMod, a: IMod, x: ModConflicts)
    requires Symmetric(conf)
    requires x in RecordsOf(StrikePartners(conf - {mod}, RecordsOf(conf, mod), mod), a)
    ensures x.mod2 != mod
    ensures HasMirror(StrikePartners(conf - {mod}, RecordsOf(conf, mod), mod), a, x)
  {
    var r := StrikePartners(conf - {mod}, RecordsOf(conf, mod), mod);
    StruckRecordOrigin(conf, mod, a, x);
    var i0 :| 0 <= i0 < |conf[a]| && conf[a][i0] == x;
    assert HasMirror(conf, a, conf[a][i0]);
    var j :| 0 <= j < |conf[x.mod2]| && Mirrors(x, a, conf[x.mod2][j]);
    var s := conf[x.mod2][j];
    SurvivesStrike(conf, mod, x.mod2, s);
    var j2 :| 0 <= j2 < |r[x.mod2]| && r[x.mod2][j2] == s;
  }

  /**
   * Removing a mod's key and striking it from its partners keeps a symmetric
   * conflict graph symmetric, and afterwards no record names the mod.
   */
  lemma RemoveModKeepsSymmetry(conf: map<IMod, seq<ModConflicts>>, mod: IMod)
    requires Symmetric(conf)
    ensures var r := StrikePartners(conf - {mod}, RecordsOf(conf, mod), mod);
      Symmetric(r) && mod !in r
      && forall a, i :: a in r && 0 <= i < |r[a]| ==> r[a][i].mod2 != mod
  {
    var r: map<IMod, seq<ModConflicts>> := StrikePartners(conf - {mod}, RecordsOf(conf, mod), mod);
    StrikePartnersPointwise(conf - {mod}, RecordsOf(conf, mod), mod, mod);
    forall a: IMod, i: int | a in r && 0 <= i < |r[a]|
      ensures r[a][i].mod2 != mod && HasMirror(r, a, r[a][i])
    {
      assert r[a][i] in RecordsOf(r, a);
      StrikeKeepsMirror(conf, mod, a, r[a][i]);
    }
  }

  // ---------------------------------------------------------------------
  // Changed items against the redirections themselves

  /** `entries` lists exactly the pairs of `rf`, each game path once (a dictionary's enumeration). */
  ghost predicate Enumerates(entries: seq<(GamePath, ModPath)>, rf: map<GamePath, ModPath>) {
    (forall e :: e in entries <==> e.0 in rf && rf[e.0] == e.1)
    && (forall i, j :: 0 <= i < j < |entries| ==> entries[i].0 != entries[j].0)
  }

  /** Some non-IMC redirection of `rf` won by `m` is linked to item `name`. */
  ghost predicate Linked(rf: map<GamePath, ModPath>, identify: GamePath -> seq<(string, ItemObject)>, name: string, m: IMod) {
    exists p :: p in rf && !IsImcPath(p) && rf[p].mod == m && name in FoundNames(identify(p))
  }

  /** `items` names exactly the (item, mod) pairs of non-IMC redirections in `rf` that `identify` links. */
  ghost predicate ItemsListed(items: map<string, ChangedItem>, rf: map<GamePath, ModPath>,
                              identify: GamePath -> seq<(string, ItemObject)>) {
    forall name: string, m: IMod :: (name in items && m in items[name].mods) <==> Linked(rf, identify, name, m)
  }

  /** The changed-items index read against the redirections it was built from. */
  lemma CollectItemsOfResolved(entries: seq<(GamePath, ModPath)>, rf: map<GamePath, ModPath>,
                               identify: GamePath -> seq<(string, ItemObject)>, name: string, m: IMod)
    requires Enumerates(entries, rf)
    ensures (name in CollectItems(entries, identify) && m in CollectItems(entries, identify)[name].mods)
      <==> Linked(rf, identify, name, m)
  {
    CollectItemsSpec(entries, identify);
    if Touches(entries, identify, name, m) {
      var i, j :| 0 <= i < |entries| && !IsImcPath(entries[i].0) && entries[i].1.mod == m
        && 0 <= j < |identify(entries[i].0)| && identify(entries[i].0)[j].0 == name;
      assert entries[i] in entries;
      assert name in FoundNames(identify(entries[i].0));
    }
    if Linked(rf, identify, name, m) {
      var p :| p in rf && !IsImcPath(p) && rf[p].mod == m && name in FoundNames(identify(p));
      assert (p, rf[p]) in entries;
      var i :| 0 <= i < |entries| && entries[i] == (p, rf[p]);
      var j :| 0 <= j < |identify(p)| && identify(p)[j].0 == name;
      assert Touches(entries, identify, name, m);
    }
  }

  /** `CollectItems` over an enumeration of `rf` lists exactly the pairs `rf` links. */
  lemma CollectItemsListed(entries: seq<(GamePath, ModPath)>, rf: map<GamePath, ModPath>,
                           identify: GamePath -> seq<(string, ItemObject)>)
    requires Enumerates(entries, rf)
    ensures ItemsListed(CollectItems(entries, identify), rf, identify)
  {
    forall name: string, m: IMod
      ensures (name in CollectItems(entries, identify) && m in CollectItems(entries, identify)[name].mods) <==>
        Linked(rf, identify, name, m)
    {
      CollectItemsOfResolved(entries, rf, identify, name, m);
    }
  }
}
