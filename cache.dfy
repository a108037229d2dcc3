/**
 * The per-collection resolution cache (`ModCollection.Cache`): which mod and
 * file win each game path, which mod owns each meta manipulation, the
 * conflict graph between mods, the collection's change counter and the
 * lazily rebuilt changed-items index.
 *
 * The collection's effective settings (`coll`, indexed by mod index), the mod
 * list and the temporary mods are passed in.  Applying a manipulation to the
 * meta files, installing files into the game and reloading resident
 * resources are sinks outside this model; the cache records the owner of
 * every manipulation key.
 */
module CollectionCache {
  import opened Common
  import opened MetaManipulations
  import opened Mods
  import opened ModEmission
  import opened CacheSpec

  /** The kinds of settings change the cache reacts to. */
  datatype ModSettingChange = Inheritance | EnableState | Priority | Setting | MultiInheritance | MultiEnableState

  /** The search string of `ReverseResolvePath`: lower case, and '/' turned into '\\' for rooted paths. */
  function Needle(local: FullPath): (n: string)
    ensures |n| == |local.fullName|
    ensures forall i :: 0 <= i < |n| ==>
      n[i] == (if local.isRooted && ToLowerChar(local.fullName[i]) == '/' then '\\' else ToLowerChar(local.fullName[i]))
  {
    var lower := ToLower(local.fullName);
    if local.isRooted then ReplaceChar(lower, '/', '\\') else lower
  }

  /** For a path that is not rooted, matching the needle is matching the name itself, ignoring case. */
  lemma NeedleOfUnrootedIgnoresCase(local: FullPath, name: string)
    requires !local.isRooted
    ensures EqualsIgnoreCase(name, Needle(local)) <==> EqualsIgnoreCase(name, local.fullName)
  {
    var n := Needle(local);
    forall i | 0 <= i < |n|
      ensures ToUpperChar(n[i]) == ToUpperChar(local.fullName[i])
    {
      UpperOfLower(local.fullName[i]);
    }
  }

  /** The keys, in enumeration order, whose winning file matches `needle` ignoring case. */
  function MatchingKeys(keys: seq<GamePath>, rf: map<GamePath, ModPath>, needle: string): (r: seq<GamePath>)
    requires forall k :: k in keys ==> k in rf
    ensures forall g :: g in r <==> g in keys && EqualsIgnoreCase(rf[g].path.fullName, needle)
    decreases |keys|
  {
    if keys == [] then []
    else
      (if EqualsIgnoreCase(rf[keys[0]].path.fullName, needle) then [keys[0]] else [])
      + MatchingKeys(keys[1..], rf, needle)
  }

  /** The first `n` options of `subs` have their paths among `files` and their manipulation keys among `keys`. */
  ghost predicate SubsWithin(subs: seq<SubMod>, n: nat, files: set<GamePath>, keys: set<ManipKey>)
    requires n <= |subs|
  {
    forall k :: 0 <= k < n ==> PathsOf(Redirections(subs[k])) <= files && KeysOf(subs[k].manipulations) <= keys
  }

  /** Every option `e` replays has its paths among `files` and its manipulation keys among `keys`. */
  ghost predicate EmittedWithin(e: Emission, files: set<GamePath>, keys: set<ManipKey>) {
    e.Emitted? ==> SubsWithin(e.subs, |e.subs|, files, keys)
  }

  lemma SubsWithinNext(subs: seq<SubMod>, n: nat, files: set<GamePath>, keys: set<ManipKey>,
                       files': set<GamePath>, keys': set<ManipKey>)
    requires n < |subs| && SubsWithin(subs, n, files, keys) && files <= files' && keys <= keys'
    requires PathsOf(Redirections(subs[n])) <= files' && KeysOf(subs[n].manipulations) <= keys'
    ensures SubsWithin(subs, n + 1, files', keys')
  {
  }

  /** Every path and every manipulation key is held by one of `owners`. */
  ghost predicate OwnedWithin(rf: map<GamePath, ModPath>, mo: map<ManipKey, IMod>, owners: seq<IMod>) {
    (forall p :: p in rf ==> rf[p].mod in owners) && (forall k :: k in mo ==> mo[k] in owners)
  }

  lemma OwnedAfterClaim(rf: map<GamePath, ModPath>, rf': map<GamePath, ModPath>,
                        mo: map<ManipKey, IMod>, mo': map<ManipKey, IMod>, owners: seq<IMod>, mod: IMod)
    requires OwnedWithin(rf, mo, owners) && FilesClaimedBy(rf, rf', mod) && MetaClaimedBy(mo, mo', mod)
    ensures OwnedWithin(rf', mo', owners + [mod])
  {
  }

  /** Every mod of `mods` has the options it replays within `files` and `keys`. */
  ghost predicate AllEmittedWithin(mods: seq<IMod>, coll: seq<Option<ModSettings>>, files: set<GamePath>, keys: set<ManipKey>) {
    forall k :: 0 <= k < |mods| ==> EmittedWithin(EmissionOf(mods[k], coll), files, keys)
  }

  lemma AllEmittedNext(mods: seq<IMod>, m: IMod, coll: seq<Option<ModSettings>>, files: set<GamePath>, keys: set<ManipKey>,
                       files': set<GamePath>, keys': set<ManipKey>)
    requires AllEmittedWithin(mods, coll, files, keys) && files <= files' && keys <= keys'
    requires EmittedWithin(EmissionOf(m, coll), files', keys')
    ensures AllEmittedWithin(mods + [m], coll, files', keys')
  {
    forall k | 0 <= k < |mods| + 1
      ensures EmittedWithin(EmissionOf((mods + [m])[k], coll), files', keys')
    {
      if k < |mods| {
        assert (mods + [m])[k] == mods[k];
        EmittedWithinGrows(EmissionOf(mods[k], coll), files, keys, files', keys');
      }
    }
  }

  lemma AllEmittedMembers(mods: seq<IMod>, coll: seq<Option<ModSettings>>, files: set<GamePath>, keys: set<ManipKey>)
    requires AllEmittedWithin(mods, coll, files, keys)
    ensures forall m :: m in mods ==> EmittedWithin(EmissionOf(m, coll), files, keys)
  {
    forall m | m in mods
      ensures EmittedWithin(EmissionOf(m, coll), files, keys)
    {
      var k :| 0 <= k < |mods| && mods[k] == m;
    }
  }

  lemma EmittedWithinGrows(e: Emission, files: set<GamePath>, keys: set<ManipKey>, files': set<GamePath>, keys': set<ManipKey>)
    requires EmittedWithin(e, files, keys) && files <= files' && keys <= keys'
    ensures EmittedWithin(e, files', keys')
  {
  }

  /** The path offers of the options `subs`, option after option. */
  function SubsFileOffers(subs: seq<SubMod>, mod: IMod): (r: seq<(GamePath, ModPath)>)
    ensures forall i :: 0 <= i < |r| ==> r[i].1.mod == mod
    decreases |subs|
  {
    if subs == [] then []
    else SubsFileOffers(subs[..|subs| - 1], mod) + FileOffers(Redirections(subs[|subs| - 1]), mod)
  }

  /** The manipulation key offers of the options `subs`, option after option. */
  function SubsKeyOffers(subs: seq<SubMod>, mod: IMod): (r: seq<(ManipKey, IMod)>)
    ensures forall i :: 0 <= i < |r| ==> r[i].1 == mod
    decreases |subs|
  {
    if subs == [] then []
    else SubsKeyOffers(subs[..|subs| - 1], mod) + KeyOffers(subs[|subs| - 1].manipulations, mod)
  }

  /** The path offers `AddMod` makes: none for a disabled mod, else those of the replayed options. */
  function ModFileOffers(mod: IMod, coll: seq<Option<ModSettings>>): (r: seq<(GamePath, ModPath)>)
    ensures forall i :: 0 <= i < |r| ==> r[i].1.mod == mod
  {
    var e := EmissionOf(mod, coll);
    if e.Disabled? then [] else SubsFileOffers(e.subs, mod)
  }

  /** The manipulation key offers `AddMod` makes. */
  function ModKeyOffers(mod: IMod, coll: seq<Option<ModSettings>>): (r: seq<(ManipKey, IMod)>)
    ensures forall i :: 0 <= i < |r| ==> r[i].1 == mod
  {
    var e := EmissionOf(mod, coll);
    if e.Disabled? then [] else SubsKeyOffers(e.subs, mod)
  }

  /** `resolvedFiles` after a successful `AddMod`. */
  function AddModFiles(rf: map<GamePath, ModPath>, mod: IMod, coll: seq<Option<ModSettings>>): map<GamePath, ModPath> {
    OfferAll(rf, ModFileOffers(mod, coll), HolderOfPath, mod, coll)
  }

  /** `metaOwners` after a successful `AddMod`. */
  function AddModKeys(mo: map<ManipKey, IMod>, mod: IMod, coll: seq<Option<ModSettings>>): map<ManipKey, IMod> {
    OfferAll(mo, ModKeyOffers(mod, coll), HolderOfKey, mod, coll)
  }

  /**
   * A successful `AddMod`, path by path: a path the mod does not offer is
   * untouched; one it offers ends with the mod, from its earliest offer,
   * exactly when it was unclaimed or its holder ranks below the mod;
   * otherwise it stays where it was.
   */
  lemma AddModFilesOutcome(rf: map<GamePath, ModPath>, mod: IMod, coll: seq<Option<ModSettings>>, p: GamePath)
    ensures p in AddModFiles(rf, mod, coll) <==> p in rf || p in OfferedKeys(ModFileOffers(mod, coll))
    ensures p in rf && p !in OfferedKeys(ModFileOffers(mod, coll)) ==> AddModFiles(rf, mod, coll)[p] == rf[p]
    ensures p in OfferedKeys(ModFileOffers(mod, coll)) ==>
      AddModFiles(rf, mod, coll)[p]
        == if Kept(rf, p, HolderOfPath, mod, coll) then rf[p] else FirstOffer(ModFileOffers(mod, coll), p)
    ensures p in OfferedKeys(ModFileOffers(mod, coll)) ==>
      (AddModFiles(rf, mod, coll)[p].mod == mod <==> p !in rf || rf[p].mod == mod || Wins(rf[p].mod, mod, coll))
  {
    var offers := ModFileOffers(mod, coll);
    OfferAllOutcome(rf, offers, HolderOfPath, mod, coll, p);
    if p in OfferedKeys(offers) {
      FirstOfferIsOffered(offers, p);
    }
  }

  /** `AddModFilesOutcome` for manipulation keys. */
  lemma AddModKeysOutcome(mo: map<ManipKey, IMod>, mod: IMod, coll: seq<Option<ModSettings>>, k: ManipKey)
    ensures k in AddModKeys(mo, mod, coll) <==> k in mo || k in OfferedKeys(ModKeyOffers(mod, coll))
    ensures k in mo && k !in OfferedKeys(ModKeyOffers(mod, coll)) ==> AddModKeys(mo, mod, coll)[k] == mo[k]
    ensures k in OfferedKeys(ModKeyOffers(mod, coll)) ==>
      (AddModKeys(mo, mod, coll)[k] == mod <==> k !in mo || mo[k] == mod || Wins(mo[k], mod, coll))
  {
    var offers := ModKeyOffers(mod, coll);
    OfferAllOutcome(mo, offers, HolderOfKey, mod, coll, k);
    if k in OfferedKeys(offers) {
      FirstOfferIsOffered(offers, k);
    }
  }

  /** Replaying one more option is `AddSubMod`'s offers after those of the options before it. */
  lemma SubsOffersStep(rf: map<GamePath, ModPath>, mo: map<ManipKey, IMod>, subs: seq<SubMod>, i: nat, mod: IMod,
                       coll: seq<Option<ModSettings>>)
    requires i < |subs|
    ensures OfferAll(rf, SubsFileOffers(subs[..i + 1], mod), HolderOfPath, mod, coll)
      == OfferFiles(OfferAll(rf, SubsFileOffers(subs[..i], mod), HolderOfPath, mod, coll), Redirections(subs[i]), mod, coll)
    ensures OfferAll(mo, SubsKeyOffers(subs[..i + 1], mod), HolderOfKey, mod, coll)
      == OfferKeys(OfferAll(mo, SubsKeyOffers(subs[..i], mod), HolderOfKey, mod, coll), subs[i].manipulations, mod, coll)
  {
    assert subs[..i + 1][..i] == subs[..i];
    OfferAllConcat(rf, SubsFileOffers(subs[..i], mod), FileOffers(Redirections(subs[i]), mod), HolderOfPath, mod, coll);
    OfferAllConcat(mo, SubsKeyOffers(subs[..i], mod), KeyOffers(subs[i].manipulations, mod), HolderOfKey, mod, coll);
  }

  /** `resolvedFiles` after `FullRecalculation` has replayed `mods` into an empty cache. */
  function ReplayFiles(mods: seq<IMod>, coll: seq<Option<ModSettings>>): map<GamePath, ModPath>
    decreases |mods|
  {
    if mods == [] then map[] else AddModFiles(ReplayFiles(mods[..|mods| - 1], coll), mods[|mods| - 1], coll)
  }

  /** `metaOwners` after `FullRecalculation` has replayed `mods` into an empty cache. */
  function ReplayKeys(mods: seq<IMod>, coll: seq<Option<ModSettings>>): map<ManipKey, IMod>
    decreases |mods|
  {
    if mods == [] then map[] else AddModKeys(ReplayKeys(mods[..|mods| - 1], coll), mods[|mods| - 1], coll)
  }

  /** Replaying one more mod is `AddMod` of it after the mods before it. */
  lemma ReplayedAfter(rf: map<GamePath, ModPath>, mo: map<ManipKey, IMod>, rf': map<GamePath, ModPath>, mo': map<ManipKey, IMod>,
                      mods: seq<IMod>, i: nat, coll: seq<Option<ModSettings>>)
    requires i < |mods|
    requires rf == ReplayFiles(mods[..i], coll) && mo == ReplayKeys(mods[..i], coll)
    requires rf' == AddModFiles(rf, mods[i], coll) && mo' == AddModKeys(mo, mods[i], coll)
    ensures rf' == ReplayFiles(mods[..i + 1], coll) && mo' == ReplayKeys(mods[..i + 1], coll)
  {
    assert mods[..i + 1][..i] == mods[..i];
  }

  class Cache {
    /** `ResolvedFiles`: the winning mod and file of every redirected game path. */
    var resolvedFiles: map<GamePath, ModPath>
    /** The mod each applied meta manipulation belongs to. */
    var metaOwners: map<ManipKey, IMod>
    /** `_conflicts`: the conflict records of each mod. */
    var conflicts: map<IMod, seq<ModConflicts>>
    /** The shared conflict lists, referenced from records by `listId`. */
    var lists: seq<seq<ConflictItem>>
    /** The collection's `ChangeCounter`. */
    var changeCounter: int
    var changedItems: map<string, ChangedItem>
    var changedItemsSaveCounter: int

    ghost predicate Valid()
      reads this
    {
      ListIdsOk(conflicts, |lists|)
    }

    constructor (counter: int)
      ensures Valid()
      ensures resolvedFiles == map[] && metaOwners == map[] && conflicts == map[] && lists == []
      ensures changeCounter == counter && changedItems == map[] && changedItemsSaveCounter == -1
    {
      resolvedFiles := map[];
      metaOwners := map[];
      conflicts := map[];
      lists := [];
      changeCounter := counter;
      changedItems := map[];
      changedItemsSaveCounter := -1;
    }

    /** `Conflicts(mod)`: the mod's records, every one naming a list of the arena. */
    function Conflicts(mod: IMod): (r: seq<ModConflicts>)
      reads this
      ensures mod !in conflicts ==> r == []
      ensures Valid() ==> RecordsOk(r, |lists|)
    {
      RecordsOf(conflicts, mod)
    }

    /**
     * `ResolvePath`: the winning file of `p`, unless there is none, its name is
     * longer than a game path may be, or it is rooted and missing on disk.
     */
    function ResolvePath(p: GamePath, fileExists: FullPath -> bool): (r: Option<FullPath>)
      reads this
      ensures r.Some? <==> (p in resolvedFiles
        && |resolvedFiles[p].path.internalName| <= MaxGamePathLength
        && (resolvedFiles[p].path.isRooted ==> fileExists(resolvedFiles[p].path)))
      ensures r.Some? ==> r.value == resolvedFiles[p].path
    {
      if p !in resolvedFiles then None
      else
        var candidate := resolvedFiles[p];
        if |candidate.path.internalName| > MaxGamePathLength || (candidate.path.isRooted && !fileExists(candidate.path)) then None
        else Some(candidate.path)
    }

    /**
     * `ReverseResolvePath`: every game path whose winning file matches the
     * needle ignoring case, in the enumeration order `keys` of
     * `resolvedFiles`, preceded by the file's own name when it is not rooted
     * and parses as a game path.
     */
    function ReverseResolvePath(local: FullPath, keys: seq<GamePath>, fromString: string -> Option<GamePath>): (r: seq<GamePath>)
      reads this
      requires forall k :: k in keys <==> k in resolvedFiles
      ensures forall g :: g in resolvedFiles && EqualsIgnoreCase(resolvedFiles[g].path.fullName, Needle(local)) ==> g in r
      ensures forall g :: g in r ==>
        (g in resolvedFiles && EqualsIgnoreCase(resolvedFiles[g].path.fullName, Needle(local)))
        || (!local.isRooted && fromString(local.fullName) == Some(g))
      ensures !local.isRooted && fromString(local.fullName).Some? ==> |r| > 0 && r[0] == fromString(local.fullName).value
    {
      var found := MatchingKeys(keys, resolvedFiles, Needle(local));
      if !local.isRooted && fromString(local.fullName).Some? then [fromString(local.fullName).value] + found
      else found
    }

    /**
     * `RemoveEmptyConflicts`: drop the records of `mod` (from `oldRecs`) whose
     * shared list became empty; when `transitive`, the partner of each such
     * record drops its own empty records too.
     */
    method RemoveEmptyConflicts(mod: IMod, oldRecs: seq<ModConflicts>, transitive: bool)
      requires Valid() && RecordsOk(oldRecs, |lists|)
      modifies this
      decreases if transitive then 1 else 0
      ensures Valid()
      ensures lists == old(lists) && resolvedFiles == old(resolvedFiles) && metaOwners == old(metaOwners)
      ensures changeCounter == old(changeCounter) && changedItems == old(changedItems)
      ensures changedItemsSaveCounter == old(changedItemsSaveCounter)
      ensures !transitive ==> conflicts == SetRecords(old(conflicts), mod, KeepNonEmpty(oldRecs, lists))
      ensures transitive ==>
        conflicts == SetRecords(DropEmptyPartners(old(conflicts), oldRecs, lists), mod, KeepNonEmpty(oldRecs, lists))
      ensures forall c :: c in Conflicts(mod) ==> lists[c.listId] != []
    {
      var kept: seq<ModConflicts> := [];
      var i := 0;
      while i < |oldRecs|
        invariant 0 <= i <= |oldRecs|
        invariant Valid()
        invariant lists == old(lists) && resolvedFiles == old(resolvedFiles) && metaOwners == old(metaOwners)
        invariant changeCounter == old(changeCounter) && changedItems == old(changedItems)
        invariant changedItemsSaveCounter == old(changedItemsSaveCounter)
        invariant kept == KeepNonEmpty(oldRecs[..i], lists)
        invariant !transitive ==> conflicts == old(conflicts)
        invariant transitive ==> conflicts == DropEmptyPartners(old(conflicts), oldRecs[..i], lists)
      {
        var c := oldRecs[i];
        assert oldRecs[..i + 1][..i] == oldRecs[..i];
        if lists[c.listId] == [] {
          if transitive {
            RecordsOfOk(conflicts, c.mod2, |lists|);
            RemoveEmptyConflicts(c.mod2, Conflicts(c.mod2), false);
          }
        } else {
          kept := kept + [c];
        }
        i := i + 1;
      }
      assert oldRecs[..i] == oldRecs;
      KeepNonEmptyIsFilter(oldRecs, lists);
      SetRecordsOk(conflicts, mod, kept, |lists|);
      conflicts := SetRecords(conflicts, mod, kept);
    }
  
    /** Append `data` to the shared list `id`. */
    method ExtendList(id: nat, data: ConflictItem)
      requires Valid() && id < |lists|
      modifies this
      ensures Valid()
      ensures resolvedFiles == old(resolvedFiles) && metaOwners == old(metaOwners) && conflicts == old(conflicts)
      ensures changeCounter == old(changeCounter) && changedItems == old(changedItems)
      ensures changedItemsSaveCounter == old(changedItemsSaveCounter)
      ensures lists == old(lists)[id := old(lists)[id] + [data]]
      ensures Occurrences(lists, data) == old(Occurrences(lists, data)) + 1
    {
      OccurrencesUpdate(lists, id, lists[id] + [data], data);
      lists := lists[id := lists[id] + [data]];
    }

    /** Create a new list holding `data` and the two mirrored records that share it. */
    method NewPair(data: ConflictItem, added: IMod, existing: IMod, ep: int, ap: int)
      requires Valid()
      modifies this
      ensures Valid()
      ensures resolvedFiles == old(resolvedFiles) && metaOwners == old(metaOwners)
      ensures changeCounter == old(changeCounter) && changedItems == old(changedItems)
      ensures changedItemsSaveCounter == old(changedItemsSaveCounter)
      ensures lists == old(lists) + [[data]]
      ensures conflicts == AddPair(old(conflicts), added, existing, |old(lists)|, ep, ap)
      ensures Occurrences(lists, data) == old(Occurrences(lists, data)) + 1
      ensures |Conflicts(added)| > 0 && Conflicts(added)[|Conflicts(added)| - 1].mod2 == existing
      ensures data in lists[Conflicts(added)[|Conflicts(added)| - 1].listId]
    {
      var id := |lists|;
      OccurrencesAppend(lists, [data], data);
      AddPairFacts(conflicts, added, existing, id, ep, ap);
      lists := lists + [[data]];
      conflicts := AddPair(conflicts, added, existing, id, ep, ap);
    }

    /**
     * The recording step of `AddConflict`: append `data` to the pair's shared
     * list if `added` already has a record for `existing`, otherwise create a
     * new list and the two mirrored records.
     */
    method RecordConflict(data: ConflictItem, added: IMod, existing: IMod, ep: int, ap: int)
      requires Valid()
      modifies this
      ensures Valid()
      ensures resolvedFiles == old(resolvedFiles) && metaOwners == old(metaOwners)
      ensures changeCounter == old(changeCounter) && changedItems == old(changedItems)
      ensures changedItemsSaveCounter == old(changedItemsSaveCounter)
      ensures Occurrences(lists, data) == old(Occurrences(lists, data)) + 1
      ensures |lists| >= |old(lists)|
      ensures var k := FindPartner(old(Conflicts(added)), existing);
        k >= 0 ==> (conflicts == old(conflicts)
          && lists == old(lists)[old(Conflicts(added))[k].listId := old(lists)[old(Conflicts(added))[k].listId] + [data]])
      ensures FindPartner(old(Conflicts(added)), existing) < 0 ==>
        lists == old(lists) + [[data]]
        && conflicts == AddPair(old(conflicts), added, existing, |old(lists)|, ep, ap)
      ensures exists i :: (0 <= i < |Conflicts(added)| && Conflicts(added)[i].mod2 == existing
        && data in lists[Conflicts(added)[i].listId])
    {
      var k := FindPartner(Conflicts(added), existing);
      if k >= 0 {
        ExtendList(Conflicts(added)[k].listId, data);
        assert Conflicts(added)[k].mod2 == existing && data in lists[Conflicts(added)[k].listId];
      } else {
        NewPair(data, added, existing, ep, ap);
        var n := |Conflicts(added)| - 1;
        assert Conflicts(added)[n].mod2 == existing && data in lists[Conflicts(added)[n].listId];
      }
    }

    /**
     * `AddConflict`: `added` contends for `data`, currently held by
     * `existing`.  When `added` outranks `existing`, the item is struck from
     * every list `existing` shares and re-contested against each mod it was
     * struck against; empty records are then removed.  The pair's conflict is
     * recorded and `wins` tells whether `added` now holds the item.  `ok` is
     * false where the source throws (a priority that cannot be read).
     */
    method AddConflict(data: ConflictItem, added: IMod, existing: IMod, coll: seq<Option<ModSettings>>) returns (ok: bool, wins: bool)
      requires Valid()
      modifies this
      decreases Occurrences(lists, data)
      ensures Valid()
      ensures resolvedFiles == old(resolvedFiles) && metaOwners == old(metaOwners)
      ensures changeCounter == old(changeCounter) && changedItems == old(changedItems)
      ensures changedItemsSaveCounter == old(changedItemsSaveCounter)
      ensures |lists| >= |old(lists)|
      ensures Occurrences(lists, data) <= old(Occurrences(lists, data)) + 1
      ensures PriorityOf(added, coll).None? || PriorityOf(existing, coll).None? ==>
        !ok && conflicts == old(conflicts) && lists == old(lists)
      ensures ok ==> (PriorityOf(added, coll).Some? && PriorityOf(existing, coll).Some?
        && wins == (PriorityOf(existing, coll).value < PriorityOf(added, coll).value))
      ensures ok ==> exists i :: (0 <= i < |Conflicts(added)| && Conflicts(added)[i].mod2 == existing
        && data in lists[Conflicts(added)[i].listId])
    {
      var addedPriority := PriorityOf(added, coll);
      var existingPriority := PriorityOf(existing, coll);
      if addedPriority.None? || existingPriority.None? {
        return false, false;
      }
      var ap := addedPriority.value;
      var ep := existingPriority.value;
      if ep < ap {
        var tmpConflicts := Conflicts(existing);
        var i := 0;
        while i < |tmpConflicts|
          invariant 0 <= i <= |tmpConflicts|
          invariant Valid()
          invariant RecordsOk(tmpConflicts, |lists|)
          invariant resolvedFiles == old(resolvedFiles) && metaOwners == old(metaOwners)
          invariant changeCounter == old(changeCounter) && changedItems == old(changedItems)
          invariant changedItemsSaveCounter == old(changedItemsSaveCounter)
          invariant |lists| >= |old(lists)|
          invariant Occurrences(lists, data) <= old(Occurrences(lists, data))
        {
          var c := tmpConflicts[i];
          var removed := multiset(lists[c.listId])[data];
          OccurrencesUpdate(lists, c.listId, Without(lists[c.listId], data), data);
          lists := lists[c.listId := Without(lists[c.listId], data)];
          if removed > 0 {
            var okInner, _ := AddConflict(data, added, c.mod2, coll);
            if !okInner {
              return false, false;
            }
          }
          i := i + 1;
        }
        RemoveEmptyConflicts(existing, tmpConflicts, true);
      }
      RecordConflict(data, added, existing, ep, ap);
      return true, ep < ap;
    }

    /**
     * `AddFile`: an unclaimed path goes to `mod`; a path `mod` already holds
     * is left alone; a path held by another mod moves to `mod` only if
     * `AddConflict` says `mod` wins it.
     */
    method AddFile(path: GamePath, file: FullPath, mod: IMod, coll: seq<Option<ModSettings>>) returns (ok: bool)
      requires Valid()
      modifies this
      ensures Valid()
      ensures metaOwners == old(metaOwners)
      ensures changeCounter == old(changeCounter) && changedItems == old(changedItems)
      ensures changedItemsSaveCounter == old(changedItemsSaveCounter)
      ensures FilesClaimedBy(old(resolvedFiles), resolvedFiles, mod)
      ensures ok ==> path in resolvedFiles
      ensures path !in old(resolvedFiles) ==>
        ok && resolvedFiles == old(resolvedFiles)[path := ModPath(mod, file)]
        && conflicts == old(conflicts) && lists == old(lists)
      ensures path in old(resolvedFiles) && old(resolvedFiles)[path].mod == mod ==>
        ok && resolvedFiles == old(resolvedFiles) && conflicts == old(conflicts) && lists == old(lists)
      ensures path in old(resolvedFiles) && old(resolvedFiles)[path].mod != mod && ok ==>
        var holder := old(resolvedFiles)[path].mod;
        PriorityOf(holder, coll).Some? && PriorityOf(mod, coll).Some?
        && resolvedFiles == (if PriorityOf(holder, coll).value < PriorityOf(mod, coll).value
                             then old(resolvedFiles)[path := ModPath(mod, file)]
                             else old(resolvedFiles))
      ensures ok ==> resolvedFiles == OfferOne(old(resolvedFiles), path, ModPath(mod, file), HolderOfPath, mod, coll)
    {
      if path !in resolvedFiles {
        resolvedFiles := resolvedFiles[path := ModPath(mod, file)];
        return true;
      }
      var modPath := resolvedFiles[path];
      if mod == modPath.mod {
        return true;
      }
      var wins;
      ok, wins := AddConflict(PathItem(path), mod, modPath.mod, coll);
      if ok && wins {
        resolvedFiles := resolvedFiles[path := ModPath(mod, file)];
      }
    }

    /**
     * `AddManipulation`: as `AddFile`, for the owner of a manipulation key.
     * An Unknown manipulation cannot be hashed, so `ok` is false.
     */
    method AddManipulation(manip: MetaManipulation, mod: IMod, coll: seq<Option<ModSettings>>) returns (ok: bool)
      requires Valid()
      modifies this
      ensures Valid()
      ensures resolvedFiles == old(resolvedFiles)
      ensures changeCounter == old(changeCounter) && changedItems == old(changedItems)
      ensures changedItemsSaveCounter == old(changedItemsSaveCounter)
      ensures MetaClaimedBy(old(metaOwners), metaOwners, mod)
      ensures manip.Unknown? ==> !ok && metaOwners == old(metaOwners) && conflicts == old(conflicts) && lists == old(lists)
      ensures ok ==> Key(manip) in metaOwners
      ensures !manip.Unknown? && Key(manip) !in old(metaOwners) ==>
        ok && metaOwners == old(metaOwners)[Key(manip) := mod] && conflicts == old(conflicts) && lists == old(lists)
      ensures !manip.Unknown? && Key(manip) in old(metaOwners) && old(metaOwners)[Key(manip)] == mod ==>
        ok && metaOwners == old(metaOwners) && conflicts == old(conflicts) && lists == old(lists)
      ensures !manip.Unknown? && Key(manip) in old(metaOwners) && old(metaOwners)[Key(manip)] != mod && ok ==>
        var holder := old(metaOwners)[Key(manip)];
        PriorityOf(holder, coll).Some? && PriorityOf(mod, coll).Some?
        && metaOwners == (if PriorityOf(holder, coll).value < PriorityOf(mod, coll).value
                          then old(metaOwners)[Key(manip) := mod]
                          else old(metaOwners))
      ensures ok ==> metaOwners == OfferOne(old(metaOwners), Key(manip), mod, HolderOfKey, mod, coll)
    {
      if manip.Unknown? {
        return false;
      }
      var key := Key(manip);
      if key !in metaOwners {
        metaOwners := metaOwners[key := mod];
        return true;
      }
      var existing := metaOwners[key];
      if mod == existing {
        return true;
      }
      var wins;
      ok, wins := AddConflict(MetaItem(key), mod, existing, coll);
      if ok && wins {
        metaOwners := metaOwners[key := mod];
      }
    }

    /** The file loop of `AddSubMod`: `AddFile` of each redirection in turn, stopping at the first failure. */
    method AddRedirections(redirections: seq<(GamePath, FullPath)>, mod: IMod, coll: seq<Option<ModSettings>>) returns (ok: bool)
      requires Valid()
      modifies this
      ensures Valid()
      ensures changeCounter == old(changeCounter) && changedItems == old(changedItems)
      ensures changedItemsSaveCounter == old(changedItemsSaveCounter)
      ensures FilesClaimedBy(old(resolvedFiles), resolvedFiles, mod)
      ensures metaOwners == old(metaOwners)
      ensures ok ==> PathsOf(redirections) <= resolvedFiles.Keys
      ensures ok ==> resolvedFiles == OfferFiles(old(resolvedFiles), redirections, mod, coll)
    {
      ok := true;
      var i := 0;
      while i < |redirections|
        invariant 0 <= i <= |redirections|
        invariant Valid()
        invariant changeCounter == old(changeCounter) && changedItems == old(changedItems)
        invariant changedItemsSaveCounter == old(changedItemsSaveCounter)
        invariant FilesClaimedBy(old(resolvedFiles), resolvedFiles, mod)
        invariant metaOwners == old(metaOwners)
        invariant PathsOf(redirections[..i]) <= resolvedFiles.Keys
        invariant resolvedFiles == OfferFiles(old(resolvedFiles), redirections[..i], mod, coll)
      {
        ghost var before := resolvedFiles;
        ok := AddFile(redirections[i].0, redirections[i].1, mod, coll);
        if !ok {
          return;
        }
        OfferFilesStep(old(resolvedFiles), before, resolvedFiles, redirections, i, mod, coll);
        assert redirections[..i + 1] == redirections[..i] + [redirections[i]];
        i := i + 1;
      }
      assert redirections[..i] == redirections;
    }

    /** The manipulation loop of `AddSubMod`: `AddManipulation` of each in turn, stopping at the first failure. */
    method AddManipulations(manips: seq<MetaManipulation>, mod: IMod, coll: seq<Option<ModSettings>>) returns (ok: bool)
      requires Valid()
      modifies this
      ensures Valid()
      ensures changeCounter == old(changeCounter) && changedItems == old(changedItems)
      ensures changedItemsSaveCounter == old(changedItemsSaveCounter)
      ensures resolvedFiles == old(resolvedFiles)
      ensures MetaClaimedBy(old(metaOwners), metaOwners, mod)
      ensures ok ==> KeysOf(manips) <= metaOwners.Keys
      ensures ok ==> metaOwners == OfferKeys(old(metaOwners), manips, mod, coll)
    {
      ok := true;
      var j := 0;
      while j < |manips|
        invariant 0 <= j <= |manips|
        invariant Valid()
        invariant changeCounter == old(changeCounter) && changedItems == old(changedItems)
        invariant changedItemsSaveCounter == old(changedItemsSaveCounter)
        invariant resolvedFiles == old(resolvedFiles)
        invariant MetaClaimedBy(old(metaOwners), metaOwners, mod)
        invariant KeysOf(manips[..j]) <= metaOwners.Keys
        invariant metaOwners == OfferKeys(old(metaOwners), manips[..j], mod, coll)
      {
        ghost var before := metaOwners;
        ok := AddManipulation(manips[j], mod, coll);
        if !ok {
          return;
        }
        OfferKeysStep(old(metaOwners), before, metaOwners, manips, j, mod, coll);
        assert manips[..j + 1] == manips[..j] + [manips[j]];
        j := j + 1;
      }
      assert manips[..j] == manips;
    }

    /** `AddSubMod`: every file and swap of the option, then every manipulation. */
    method AddSubMod(sub: SubMod, mod: IMod, coll: seq<Option<ModSettings>>) returns (ok: bool)
      requires Valid()
      modifies this
      ensures Valid()
      ensures changeCounter == old(changeCounter) && changedItems == old(changedItems)
      ensures changedItemsSaveCounter == old(changedItemsSaveCounter)
      ensures FilesClaimedBy(old(resolvedFiles), resolvedFiles, mod)
      ensures MetaClaimedBy(old(metaOwners), metaOwners, mod)
      ensures ok ==> PathsOf(Redirections(sub)) <= resolvedFiles.Keys
      ensures ok ==> KeysOf(sub.manipulations) <= metaOwners.Keys
      ensures ok ==> resolvedFiles == OfferFiles(old(resolvedFiles), Redirections(sub), mod, coll)
      ensures ok ==> metaOwners == OfferKeys(old(metaOwners), sub.manipulations, mod, coll)
    {
      ok := AddRedirections(Redirections(sub), mod, coll);
      if !ok {
        return;
      }
      ghost var rf := resolvedFiles;
      ok := AddManipulations(sub.manipulations, mod, coll);
      FilesClaimedTrans(old(resolvedFiles), rf, resolvedFiles, mod);
    }
  
    /** After a successful `AddMod` every option it replayed has its paths and manipulation keys claimed. */
    ghost predicate Covers(mod: IMod, coll: seq<Option<ModSettings>>)
      reads this
    {
      EmittedWithin(EmissionOf(mod, coll), resolvedFiles.Keys, metaOwners.Keys)
    }

    /** The replay loop of `AddMod`: `AddSubMod` of each option in turn, stopping at the first failure. */
    method AddSubMods(subs: seq<SubMod>, mod: IMod, coll: seq<Option<ModSettings>>) returns (ok: bool)
      requires Valid()
      modifies this
      ensures Valid()
      ensures changedItems == old(changedItems) && changedItemsSaveCounter == old(changedItemsSaveCounter)
      ensures changeCounter == old(changeCounter)
      ensures FilesClaimedBy(old(resolvedFiles), resolvedFiles, mod)
      ensures MetaClaimedBy(old(metaOwners), metaOwners, mod)
      ensures ok ==> SubsWithin(subs, |subs|, resolvedFiles.Keys, metaOwners.Keys)
      ensures ok ==> resolvedFiles == OfferAll(old(resolvedFiles), SubsFileOffers(subs, mod), HolderOfPath, mod, coll)
      ensures ok ==> metaOwners == OfferAll(old(metaOwners), SubsKeyOffers(subs, mod), HolderOfKey, mod, coll)
    {
      ok := true;
      var i := 0;
      while i < |subs|
        invariant 0 <= i <= |subs|
        invariant Valid()
        invariant changedItems == old(changedItems) && changedItemsSaveCounter == old(changedItemsSaveCounter)
        invariant changeCounter == old(changeCounter)
        invariant FilesClaimedBy(old(resolvedFiles), resolvedFiles, mod)
        invariant MetaClaimedBy(old(metaOwners), metaOwners, mod)
        invariant SubsWithin(subs, i, resolvedFiles.Keys, metaOwners.Keys)
        invariant resolvedFiles == OfferAll(old(resolvedFiles), SubsFileOffers(subs[..i], mod), HolderOfPath, mod, coll)
        invariant metaOwners == OfferAll(old(metaOwners), SubsKeyOffers(subs[..i], mod), HolderOfKey, mod, coll)
      {
        ghost var rf, mo := resolvedFiles, metaOwners;
        SubsOffersStep(old(resolvedFiles), old(metaOwners), subs, i, mod, coll);
        ok := AddSubMod(subs[i], mod, coll);
        FilesClaimedTrans(old(resolvedFiles), rf, resolvedFiles, mod);
        MetaClaimedTrans(old(metaOwners), mo, metaOwners, mod);
        if !ok {
          return;
        }
        SubsWithinNext(subs, i, rf.Keys, mo.Keys, resolvedFiles.Keys, metaOwners.Keys);
        i := i + 1;
      }
      assert subs[..i] == subs;
    }

    /**
     * `AddMod`: replay the options `EmissionOf` lists, in order; nothing for a
     * disabled installed mod.  With `addMetaChanges` the change counter is
     * incremented once, but not on the early return for a disabled mod.
     */
    method AddMod(mod: IMod, addMetaChanges: bool, coll: seq<Option<ModSettings>>) returns (ok: bool)
      requires Valid()
      modifies this
      ensures Valid()
      ensures changedItems == old(changedItems) && changedItemsSaveCounter == old(changedItemsSaveCounter)
      ensures FilesClaimedBy(old(resolvedFiles), resolvedFiles, mod)
      ensures MetaClaimedBy(old(metaOwners), metaOwners, mod)
      ensures EmissionOf(mod, coll).Disabled? ==>
        ok && resolvedFiles == old(resolvedFiles) && metaOwners == old(metaOwners)
        && conflicts == old(conflicts) && lists == old(lists)
      ensures EmissionOf(mod, coll).Emitted? && !EmissionOf(mod, coll).complete ==> !ok
      ensures changeCounter == old(changeCounter) + (if ok && addMetaChanges && !EmissionOf(mod, coll).Disabled? then 1 else 0)
      ensures ok ==> Covers(mod, coll)
      ensures ok ==> resolvedFiles == AddModFiles(old(resolvedFiles), mod, coll)
      ensures ok ==> metaOwners == AddModKeys(old(metaOwners), mod, coll)
    {
      var e := EmissionOf(mod, coll);
      if e.Disabled? {
        return true;
      }
      ok := AddSubMods(e.subs, mod, coll);
      if !ok {
        return;
      }
      if !e.complete {
        return false;
      }
      if addMetaChanges {
        changeCounter := changeCounter + 1;
      }
      ok := true;
    }

    /** The first phase of `RemoveMod` for files: drop the paths of the mod's options that it wins. */
    method ReleaseFiles(mod: IMod, files: seq<(GamePath, FullPath)>)
      modifies this
      ensures resolvedFiles == ReleasedFiles(old(resolvedFiles), mod, PathsOf(files))
      ensures metaOwners == old(metaOwners) && conflicts == old(conflicts) && lists == old(lists)
      ensures changeCounter == old(changeCounter) && changedItems == old(changedItems)
      ensures changedItemsSaveCounter == old(changedItemsSaveCounter)
    {
      var i := 0;
      while i < |files|
        invariant 0 <= i <= |files|
        invariant resolvedFiles == ReleasedFiles(old(resolvedFiles), mod, PathsOf(files[..i]))
        invariant metaOwners == old(metaOwners) && conflicts == old(conflicts) && lists == old(lists)
        invariant changeCounter == old(changeCounter) && changedItems == old(changedItems)
        invariant changedItemsSaveCounter == old(changedItemsSaveCounter)
      {
        var path := files[i].0;
        assert files[..i + 1] == files[..i] + [files[i]];
        PathsOfSnoc(files[..i], files[i]);
        ReleasedFilesStep(old(resolvedFiles), mod, PathsOf(files[..i]), path);
        if path in resolvedFiles && resolvedFiles[path].mod == mod {
          resolvedFiles := resolvedFiles - {path};
        }
        i := i + 1;
      }
      assert files[..i] == files;
    }

    /**
     * The first phase of `RemoveMod` for manipulations: drop the keys the mod
     * owns.  An Unknown manipulation cannot be looked up (`ok` false), after
     * the ones before it were released.
     */
    method ReleaseManipulations(mod: IMod, manips: seq<MetaManipulation>) returns (ok: bool)
      modifies this
      ensures ok <==> forall m :: m in manips ==> !m.Unknown?
      ensures ok ==> metaOwners == ReleasedMeta(old(metaOwners), mod, KeysOf(manips))
      ensures metaOwners.Keys <= old(metaOwners).Keys
      ensures forall k :: k in metaOwners ==> metaOwners[k] == old(metaOwners)[k]
      ensures resolvedFiles == old(resolvedFiles) && conflicts == old(conflicts) && lists == old(lists)
      ensures changeCounter == old(changeCounter) && changedItems == old(changedItems)
      ensures changedItemsSaveCounter == old(changedItemsSaveCounter)
    {
      var i := 0;
      while i < |manips|
        invariant 0 <= i <= |manips|
        invariant forall k :: 0 <= k < i ==> !manips[k].Unknown?
        invariant metaOwners == ReleasedMeta(old(metaOwners), mod, KeysOf(manips[..i]))
        invariant resolvedFiles == old(resolvedFiles) && conflicts == old(conflicts) && lists == old(lists)
        invariant changeCounter == old(changeCounter) && changedItems == old(changedItems)
        invariant changedItemsSaveCounter == old(changedItemsSaveCounter)
      {
        var m := manips[i];
        if m.Unknown? {
          return false;
        }
        var key := Key(m);
        assert manips[..i + 1] == manips[..i] + [m];
        KeysOfSnoc(manips[..i], m);
        ReleasedMetaStep(old(metaOwners), mod, KeysOf(manips[..i]), key);
        if key in metaOwners && metaOwners[key] == mod {
          metaOwners := metaOwners - {key};
        }
        i := i + 1;
      }
      assert manips[..i] == manips;
      ok := true;
    }

    /** Strike `mod` from the records of `partner`. */
    method StrikePartner(partner: IMod, mod: IMod)
      requires Valid()
      modifies this
      ensures Valid()
      ensures conflicts == SetRecords(old(conflicts), partner, RemovePartner(old(Conflicts(partner)), mod))
      ensures resolvedFiles == old(resolvedFiles) && metaOwners == old(metaOwners) && lists == old(lists)
      ensures changeCounter == old(changeCounter) && changedItems == old(changedItems)
      ensures changedItemsSaveCounter == old(changedItemsSaveCounter)
    {
      var newConflicts := RemovePartner(Conflicts(partner), mod);
      RecordsOfOk(conflicts, partner, |lists|);
      RemovePartnerOk(Conflicts(partner), mod, |lists|);
      SetRecordsOk(conflicts, partner, newConflicts, |lists|);
      conflicts := SetRecords(conflicts, partner, newConflicts);
    }

    /**
     * `RemoveMod`: release the mod's paths and manipulation keys, delete its
     * conflict key, then for each of its records reload the partner if the
     * mod had priority over it, or else strike the mod from the partner's
     * records.  `fuel` bounds the depth of the reload recursion, which the
     * source does not bound; running out of it counts as a failure.
     */
    method RemoveMod(mod: IMod, addMetaChanges: bool, coll: seq<Option<ModSettings>>, fuel: nat) returns (ok: bool)
      requires Valid()
      modifies this
      decreases fuel, 2
      ensures Valid()
      ensures changedItems == old(changedItems) && changedItemsSaveCounter == old(changedItemsSaveCounter)
      ensures changeCounter == old(changeCounter) + (if ok && addMetaChanges then 1 else 0)
      ensures (exists m :: m in ConcatManipulations(AllSubMods(mod)) && m.Unknown?) ==> !ok
      ensures ((forall m :: m in ConcatManipulations(AllSubMods(mod)) ==> !m.Unknown?)
               && (forall c :: c in old(Conflicts(mod)) ==> !c.hasPriority)) ==> ok
      ensures ok && (forall c :: c in old(Conflicts(mod)) ==> !c.hasPriority) ==>
        resolvedFiles == ReleasedFiles(old(resolvedFiles), mod, PathsOf(ConcatRedirections(AllSubMods(mod))))
        && metaOwners == ReleasedMeta(old(metaOwners), mod, KeysOf(ConcatManipulations(AllSubMods(mod))))
        && conflicts == StrikePartners(old(conflicts) - {mod}, old(Conflicts(mod)), mod)
        && lists == old(lists)
    {
      var modConflicts := Conflicts(mod);
      ReleaseFiles(mod, ConcatRedirections(AllSubMods(mod)));
      ok := ReleaseManipulations(mod, ConcatManipulations(AllSubMods(mod)));
      if !ok {
        return;
      }
      conflicts := conflicts - {mod};
      ok := SettlePartners(mod, modConflicts, coll, fuel);
      if !ok {
        return;
      }
      if addMetaChanges {
        changeCounter := changeCounter + 1;
      }
      ok := true;
    }

    /** One record of the loop in `RemoveMod`: reload the partner if `mod` had priority over it, else strike `mod` from its records. */
    method SettlePartner(mod: IMod, c: ModConflicts, coll: seq<Option<ModSettings>>, fuel: nat) returns (ok: bool)
      requires Valid()
      modifies this
      decreases fuel, 0
      ensures Valid()
      ensures changedItems == old(changedItems) && changedItemsSaveCounter == old(changedItemsSaveCounter)
      ensures changeCounter == old(changeCounter)
      ensures !c.hasPriority ==>
        ok && resolvedFiles == old(resolvedFiles) && metaOwners == old(metaOwners) && lists == old(lists)
        && conflicts == SetRecords(old(conflicts), c.mod2, RemovePartner(old(Conflicts(c.mod2)), mod))
      ensures c.hasPriority && ok ==> Covers(c.mod2, coll)
    {
      if c.hasPriority {
        if fuel == 0 {
          return false;
        }
        ok := ReloadMod(c.mod2, false, coll, fuel - 1);
      } else {
        StrikePartner(c.mod2, mod);
        ok := true;
      }
    }

    /**
     * The record loop of `RemoveMod`: reload each partner `mod` had priority
     * over, strike `mod` from the records of the others.  Without any
     * priority only the partners' records change.
     */
    method SettlePartners(mod: IMod, recs: seq<ModConflicts>, coll: seq<Option<ModSettings>>, fuel: nat) returns (ok: bool)
      requires Valid()
      modifies this
      decreases fuel, 1
      ensures Valid()
      ensures changedItems == old(changedItems) && changedItemsSaveCounter == old(changedItemsSaveCounter)
      ensures changeCounter == old(changeCounter)
      ensures (forall c :: c in recs ==> !c.hasPriority) ==>
        ok && resolvedFiles == old(resolvedFiles) && metaOwners == old(metaOwners) && lists == old(lists)
        && conflicts == StrikePartners(old(conflicts), recs, mod)
    {
      var i := 0;
      while i < |recs|
        invariant 0 <= i <= |recs|
        invariant Valid()
        invariant changedItems == old(changedItems) && changedItemsSaveCounter == old(changedItemsSaveCounter)
        invariant changeCounter == old(changeCounter)
        invariant (forall c :: c in recs ==> !c.hasPriority) ==>
          resolvedFiles == old(resolvedFiles) && metaOwners == old(metaOwners) && lists == old(lists)
          && conflicts == StrikePartners(old(conflicts), recs[..i], mod)
      {
        if recs[i].hasPriority {
          assert recs[i] in recs;
        } else {
          StrikePartnersNext(old(conflicts), recs, i, mod);
        }
        ok := SettlePartner(mod, recs[i], coll, fuel);
        if !ok {
          return;
        }
        i := i + 1;
      }
      assert recs[..i] == recs;
      ok := true;
    }

    /** `ReloadMod`: remove the mod, then add it again. */
    method ReloadMod(mod: IMod, addMetaChanges: bool, coll: seq<Option<ModSettings>>, fuel: nat) returns (ok: bool)
      requires Valid()
      modifies this
      decreases fuel, 3
      ensures Valid()
      ensures changedItems == old(changedItems) && changedItemsSaveCounter == old(changedItemsSaveCounter)
      ensures !addMetaChanges ==> changeCounter == old(changeCounter)
      ensures addMetaChanges && ok ==>
        changeCounter == old(changeCounter) + 1 + (if EmissionOf(mod, coll).Disabled? then 0 else 1)
      ensures ok ==> Covers(mod, coll)
    {
      ok := RemoveMod(mod, addMetaChanges, coll, fuel);
      if !ok {
        return;
      }
      ok := AddMod(mod, addMetaChanges, coll);
    }

    /** The paths and keys are exactly those of replaying `mods` into an empty cache. */
    ghost predicate Replayed(mods: seq<IMod>, coll: seq<Option<ModSettings>>)
      reads this
    {
      resolvedFiles == ReplayFiles(mods, coll) && metaOwners == ReplayKeys(mods, coll)
    }

    /** One step of `FullRecalculation`: add `all[i]` after the mods before it, which are already replayed. */
    method ReplayMod(all: seq<IMod>, i: nat, coll: seq<Option<ModSettings>>) returns (ok: bool)
      requires i < |all|
      requires Valid()
      requires OwnedWithin(resolvedFiles, metaOwners, all[..i])
      requires AllEmittedWithin(all[..i], coll, resolvedFiles.Keys, metaOwners.Keys)
      requires Replayed(all[..i], coll)
      modifies this
      ensures Valid()
      ensures changedItems == old(changedItems) && changedItemsSaveCounter == old(changedItemsSaveCounter)
      ensures changeCounter == old(changeCounter)
      ensures OwnedWithin(resolvedFiles, metaOwners, all[..i + 1])
      ensures ok ==> AllEmittedWithin(all[..i + 1], coll, resolvedFiles.Keys, metaOwners.Keys)
      ensures ok ==> resolvedFiles == AddModFiles(old(resolvedFiles), all[i], coll)
      ensures ok ==> metaOwners == AddModKeys(old(metaOwners), all[i], coll)
      ensures ok ==> Replayed(all[..i + 1], coll)
    {
      ghost var rf, mo := resolvedFiles, metaOwners;
      assert all[..i + 1] == all[..i] + [all[i]];
      ok := AddMod(all[i], false, coll);
      OwnedAfterClaim(rf, resolvedFiles, mo, metaOwners, all[..i], all[i]);
      if ok {
        AllEmittedNext(all[..i], all[i], coll, rf.Keys, mo.Keys, resolvedFiles.Keys, metaOwners.Keys);
        ReplayedAfter(rf, mo, resolvedFiles, metaOwners, all, i, coll);
      }
    }

    /** The replay loop of `FullRecalculation`: `AddMod` of each mod in turn into the cleared cache, stopping at the first failure. */
    method ReplayMods(all: seq<IMod>, coll: seq<Option<ModSettings>>) returns (ok: bool)
      requires Valid()
      requires resolvedFiles == map[] && metaOwners == map[]
      modifies this
      ensures Valid()
      ensures changedItems == old(changedItems) && changedItemsSaveCounter == old(changedItemsSaveCounter)
      ensures changeCounter == old(changeCounter)
      ensures OwnedWithin(resolvedFiles, metaOwners, all)
      ensures ok ==> AllEmittedWithin(all, coll, resolvedFiles.Keys, metaOwners.Keys)
      ensures ok ==> Replayed(all, coll)
    {
      ok := true;
      var i := 0;
      while i < |all|
        invariant 0 <= i <= |all|
        invariant Valid()
        invariant changedItems == old(changedItems) && changedItemsSaveCounter == old(changedItemsSaveCounter)
        invariant changeCounter == old(changeCounter)
        invariant OwnedWithin(resolvedFiles, metaOwners, all[..i])
        invariant AllEmittedWithin(all[..i], coll, resolvedFiles.Keys, metaOwners.Keys)
        invariant Replayed(all[..i], coll)
      {
        ok := ReplayMod(all, i, coll);
        if !ok {
          return;
        }
        i := i + 1;
      }
      assert all[..i] == all;
    }

    /**
     * `FullRecalculation`: clear everything and replay the temporary mods,
     * then the installed mods; the change counter goes up by one.
     */
    method FullRecalculation(tempMods: seq<IMod>, mods: seq<IMod>, coll: seq<Option<ModSettings>>) returns (ok: bool)
      requires Valid()
      modifies this
      ensures Valid()
      ensures changedItems == old(changedItems) && changedItemsSaveCounter == old(changedItemsSaveCounter)
      ensures changeCounter == old(changeCounter) + (if ok then 1 else 0)
      ensures forall p :: p in resolvedFiles ==> resolvedFiles[p].mod in tempMods + mods
      ensures forall k :: k in metaOwners ==> metaOwners[k] in tempMods + mods
      ensures ok ==> forall m :: m in tempMods + mods ==> Covers(m, coll)
      ensures ok ==> resolvedFiles == ReplayFiles(tempMods + mods, coll)
      ensures ok ==> metaOwners == ReplayKeys(tempMods + mods, coll)
    {
      resolvedFiles := map[];
      metaOwners := map[];
      conflicts := map[];
      lists := [];
      var all := tempMods + mods;
      ok := ReplayMods(all, coll);
      if !ok {
        return;
      }
      AllEmittedMembers(all, coll, resolvedFiles.Keys, metaOwners.Keys);
      changeCounter := changeCounter + 1;
      ok := true;
    }

    /** `IncrementCounter`: once the game's character utility has loaded. */
    method IncrementCounter()
      modifies this
      ensures changeCounter == old(changeCounter) + 1
      ensures resolvedFiles == old(resolvedFiles) && metaOwners == old(metaOwners)
      ensures conflicts == old(conflicts) && lists == old(lists)
      ensures changedItems == old(changedItems) && changedItemsSaveCounter == old(changedItemsSaveCounter)
    {
      changeCounter := changeCounter + 1;
    }

    /**
     * `OnModSettingChange`: the cache's reaction to one settings change of
     * mod `modIdx` in `mods`.  `ok` is false where the source throws (an index
     * past the mod list or the settings list).
     */
    method OnModSettingChange(change: ModSettingChange, modIdx: int, oldValue: int,
                              tempMods: seq<IMod>, mods: seq<IMod>, coll: seq<Option<ModSettings>>, fuel: nat)
      returns (ok: bool)
      requires Valid()
      modifies this
      ensures Valid()
      ensures changedItems == old(changedItems) && changedItemsSaveCounter == old(changedItemsSaveCounter)
      ensures change == Priority && 0 <= modIdx < |mods| && old(Conflicts(mods[modIdx])) == [] ==>
        ok && resolvedFiles == old(resolvedFiles) && metaOwners == old(metaOwners)
        && conflicts == old(conflicts) && lists == old(lists) && changeCounter == old(changeCounter)
      ensures change == Setting && 0 <= modIdx < |mods| && modIdx < |coll|
              && !(coll[modIdx].Some? && coll[modIdx].value.enabled) ==>
        ok && resolvedFiles == old(resolvedFiles) && metaOwners == old(metaOwners)
        && conflicts == old(conflicts) && lists == old(lists) && changeCounter == old(changeCounter)
      ensures change in {MultiInheritance, MultiEnableState} ==>
        changeCounter == old(changeCounter) + (if ok then 1 else 0)
      ensures change == EnableState && oldValue == 0 && 0 <= modIdx < |mods| && ok ==> Covers(mods[modIdx], coll)
    {
      if change == MultiInheritance || change == MultiEnableState {
        ok := FullRecalculation(tempMods, mods, coll);
        return;
      }
      if modIdx < 0 || modIdx >= |mods| {
        return false;
      }
      var mod := mods[modIdx];
      match change {
        case Inheritance =>
          ok := ReloadMod(mod, true, coll, fuel);
        case EnableState =>
          if oldValue == 0 {
            ok := AddMod(mod, true, coll);
          } else if oldValue == 1 {
            ok := RemoveMod(mod, true, coll, fuel);
          } else if modIdx >= |coll| {
            ok := false;
          } else if coll[modIdx].Some? && coll[modIdx].value.enabled {
            ok := ReloadMod(mod, true, coll, fuel);
          } else {
            ok := RemoveMod(mod, true, coll, fuel);
          }
        case Priority =>
          if |Conflicts(mod)| > 0 {
            ok := ReloadMod(mod, true, coll, fuel);
          } else {
            ok := true;
          }
        case Setting =>
          if modIdx >= |coll| {
            ok := false;
          } else if coll[modIdx].Some? && coll[modIdx].value.enabled {
            ok := ReloadMod(mod, true, coll, fuel);
          } else {
            ok := true;
          }
      }
    }

    /**
     * `SetChangedItems`: nothing when the index is current; otherwise mark it
     * current and rebuild it from the redirections, enumerated as `entries`,
     * with `identify` naming the game items a path belongs to.
     */
    method SetChangedItems(entries: seq<(GamePath, ModPath)>, identify: GamePath -> seq<(string, ItemObject)>)
      requires Enumerates(entries, resolvedFiles)
      modifies this
      ensures resolvedFiles == old(resolvedFiles) && metaOwners == old(metaOwners)
      ensures conflicts == old(conflicts) && lists == old(lists) && changeCounter == old(changeCounter)
      ensures old(changedItemsSaveCounter) == old(changeCounter) ==>
        changedItems == old(changedItems) && changedItemsSaveCounter == old(changedItemsSaveCounter)
      ensures old(changedItemsSaveCounter) != old(changeCounter) ==>
        changedItems == CollectItems(entries, identify) && changedItemsSaveCounter == changeCounter
      ensures changedItemsSaveCounter == changeCounter
    {
      if changedItemsSaveCounter == changeCounter {
        return;
      }
      changedItemsSaveCounter := changeCounter;
      changedItems := map[];
      var i := 0;
      while i < |entries|
        invariant 0 <= i <= |entries|
        invariant changedItems == CollectItems(entries[..i], identify)
        invariant resolvedFiles == old(resolvedFiles) && metaOwners == old(metaOwners)
        invariant conflicts == old(conflicts) && lists == old(lists) && changeCounter == old(changeCounter)
        invariant changedItemsSaveCounter == changeCounter
      {
        var path := entries[i].0;
        var mod := entries[i].1.mod;
        assert entries[..i + 1][..i] == entries[..i];
        if !IsImcPath(path) {
          var found := identify(path);
          ghost var before := changedItems;
          var j := 0;
          while j < |found|
            invariant 0 <= j <= |found|
            invariant changedItems == NoteAll(before, mod, found[..j])
            invariant resolvedFiles == old(resolvedFiles) && metaOwners == old(metaOwners)
            invariant conflicts == old(conflicts) && lists == old(lists) && changeCounter == old(changeCounter)
            invariant changedItemsSaveCounter == changeCounter
          {
            assert found[..j + 1][..j] == found[..j];
            changedItems := NoteItem(changedItems, mod, found[j].0, found[j].1);
            j := j + 1;
          }
          assert found[..j] == found;
        }
        i := i + 1;
      }
      assert entries[..i] == entries;
    }

    /** The `ChangedItems` property: rebuild if stale, then read. */
    method ChangedItems(entries: seq<(GamePath, ModPath)>, identify: GamePath -> seq<(string, ItemObject)>)
      returns (items: map<string, ChangedItem>)
      requires Enumerates(entries, resolvedFiles)
      modifies this
      ensures items == changedItems && changedItemsSaveCounter == changeCounter
      ensures old(changedItemsSaveCounter) != old(changeCounter) ==> ItemsListed(items, resolvedFiles, identify)
      ensures resolvedFiles == old(resolvedFiles) && metaOwners == old(metaOwners)
      ensures conflicts == old(conflicts) && lists == old(lists) && changeCounter == old(changeCounter)
    {
      SetChangedItems(entries, identify);
      items := changedItems;
      if old(changedItemsSaveCounter) != old(changeCounter) {
        CollectItemsListed(entries, resolvedFiles, identify);
      }
    }
  }
}
