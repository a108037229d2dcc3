/**
 * The EST and GMP parts of a collection's meta manager: the files it has
 * allocated and the manipulations currently applied to them.  The manager
 * keeps each file equal to the default snapshot overlaid with the recorded
 * manipulations, which is the invariant `Valid()` states.
 */
module MetaStore {
  import opened Common
  import opened GameEnums
  import opened MetaFiles
  import opened MetaManipulations

  // ---------------------------------------------------------------------------
  // Lists keyed by the manipulations' equality: AddOrReplace and Remove.

  /** Index of the first element whose key is `k`, or -1. */
  function FindIndex<T, K(==)>(list: seq<T>, k: K, key: T -> K): (i: int)
    ensures -1 <= i < |list|
    ensures i >= 0 ==> key(list[i]) == k && forall j :: 0 <= j < i ==> key(list[j]) != k
    ensures i < 0 ==> forall j :: 0 <= j < |list| ==> key(list[j]) != k
    decreases |list|
  {
    if list == [] then -1
    else if key(list[0]) == k then 0
    else
      var r := FindIndex(list[1..], k, key);
      if r < 0 then -1 else r + 1
  }

  /** The first recorded element with key `k`. */
  function Lookup<T, K(==)>(list: seq<T>, k: K, key: T -> K): (r: Option<T>)
    ensures r.Some? <==> exists j :: 0 <= j < |list| && key(list[j]) == k
    ensures r.Some? ==> r.value in list && key(r.value) == k
  {
    var i := FindIndex(list, k, key);
    if i < 0 then None else Some(list[i])
  }

  predicate DistinctKeys<T, K(==)>(list: seq<T>, key: T -> K) {
    forall i, j :: 0 <= i < j < |list| ==> key(list[i]) != key(list[j])
  }

  /** `list.AddOrReplace(x)`: overwrite the first element equal to `x`, or append `x`. */
  function AddOrReplace<T, K(==)>(list: seq<T>, x: T, key: T -> K): (r: seq<T>)
    ensures x in r
    ensures forall y :: y in r ==> y == x || y in list
    ensures |r| == if FindIndex(list, key(x), key) < 0 then |list| + 1 else |list|
  {
    var i := FindIndex(list, key(x), key);
    if i < 0 then
      assert (list + [x])[|list|] == x;
      list + [x]
    else
      assert list[i := x][i] == x;
      list[i := x]
  }

  /** `list.Remove(x)`: drop the first element equal to `x`; reports whether one was found. */
  function Remove<T, K(==)>(list: seq<T>, x: T, key: T -> K): (r: (bool, seq<T>))
    ensures r.0 <==> exists j :: 0 <= j < |list| && key(list[j]) == key(x)
    ensures !r.0 ==> r.1 == list
    ensures r.0 ==> |r.1| == |list| - 1
    ensures forall y :: y in r.1 ==> y in list
  {
    var i := FindIndex(list, key(x), key);
    if i < 0 then (false, list) else (true, list[..i] + list[i + 1..])
  }

  /** After AddOrReplace, `x` is what its key finds, and every other key finds what it found before. */
  lemma LookupAfterAddOrReplace<T, K>(list: seq<T>, x: T, key: T -> K, k: K)
    ensures Lookup(AddOrReplace(list, x, key), k, key) ==
              if k == key(x) then Some(x) else Lookup(list, k, key)
  {
    var i := FindIndex(list, key(x), key);
    var r := AddOrReplace(list, x, key);
    var j := FindIndex(list, k, key);
    var j' := FindIndex(r, k, key);
    if k == key(x) {
      if i < 0 {
        assert r[|list|] == x;
      } else {
        assert r[i] == x;
      }
      assert j' == (if i < 0 then |list| else i);
    } else if i < 0 {
      assert forall t :: 0 <= t < |list| ==> r[t] == list[t];
      if j >= 0 {
        assert j' == j;
      } else {
        assert j' < 0;
      }
    } else {
      assert forall t :: 0 <= t < |list| && t != i ==> r[t] == list[t];
      if j >= 0 {
        assert j' == j;
      } else {
        assert j' < 0;
      }
    }
  }

  /** AddOrReplace keeps the keys of a list distinct. */
  lemma AddOrReplaceDistinct<T, K>(list: seq<T>, x: T, key: T -> K)
    requires DistinctKeys(list, key)
    ensures DistinctKeys(AddOrReplace(list, x, key), key)
  {
    var i := FindIndex(list, key(x), key);
    var r := AddOrReplace(list, x, key);
    forall a, b | 0 <= a < b < |r|
      ensures key(r[a]) != key(r[b])
    {
      if i < 0 {
        if b == |list| {
          assert r[a] == list[a];
        }
      }
    }
  }

  /**
   * On a list with distinct keys, Remove leaves nothing under `x`'s key and
   * every other key finds what it found before.
   */
  lemma LookupAfterRemove<T, K>(list: seq<T>, x: T, key: T -> K, k: K)
    requires DistinctKeys(list, key)
    ensures DistinctKeys(Remove(list, x, key).1, key)
    ensures Lookup(Remove(list, x, key).1, k, key) ==
              if k == key(x) then None else Lookup(list, k, key)
  {
    var i := FindIndex(list, key(x), key);
    var r := Remove(list, x, key).1;
    if i >= 0 {
      assert forall t :: 0 <= t < i ==> r[t] == list[t];
      assert forall t :: i <= t < |r| ==> r[t] == list[t + 1];
      var j := FindIndex(list, k, key);
      var j' := FindIndex(r, k, key);
      if k == key(x) {
        assert j' < 0;
      } else if j >= 0 {
        var p := if j < i then j else j - 1;
        assert r[p] == list[j];
        assert forall t :: 0 <= t < p ==> key(r[t]) != k by {
          forall t | 0 <= t < p ensures key(r[t]) != k {
            if t < i {
              assert r[t] == list[t];
            } else {
              assert r[t] == list[t + 1];
            }
          }
        }
        assert j' == p;
      } else {
        assert j' < 0;
      }
    }
  }

  // ---------------------------------------------------------------------------
  // The expected contents of the files.

  /** The identity of an EST manipulation: its slot and the entry it addresses. */
  function EstId(m: EstManipulation): (EstType, EstKey) {
    (m.slot, EstKeyOf(m))
  }

  function GmpId(m: GmpManipulation): int {
    m.setId
  }

  /** What the EST file of `slot` should hold at `k`: the recorded entry, else the default. */
  function EstExpected(list: seq<EstManipulation>, slot: EstType, k: EstKey, snapshot: (EstType, EstKey) -> int): int {
    match Lookup(list, (slot, k), EstId)
    case Some(m) => m.entry
    case None => snapshot(slot, k)
  }

  function GmpExpected(list: seq<GmpManipulation>, setId: int, snapshot: int -> nat): nat {
    match Lookup(list, setId, GmpId)
    case Some(m) => m.entry
    case None => snapshot(setId)
  }

  /**
   * The file of `slot` holds exactly the snapshot overlaid with the recorded
   * manipulations of that slot; a slot without a file has none recorded.
   */
  ghost predicate EstFileMatches(f: Option<EstFile>, slot: EstType, list: seq<EstManipulation>, snapshot: (EstType, EstKey) -> int) {
    (f.None? ==> forall j :: 0 <= j < |list| ==> list[j].slot != slot) &&
    (f.Some? ==> f.value.slot == slot &&
                 forall k :: EstValue(f.value, k, snapshot) == EstExpected(list, slot, k, snapshot))
  }

  ghost predicate GmpFileMatches(f: Option<ExpandedGmpFile>, list: seq<GmpManipulation>, snapshot: int -> nat) {
    (f.None? ==> list == []) &&
    (f.Some? ==> forall id :: GmpValue(f.value, id, snapshot) == GmpExpected(list, id, snapshot))
  }

  /** The set ids of the recorded GMP manipulations, in list order. */
  function SetIds(list: seq<GmpManipulation>): (ids: seq<int>)
    ensures |ids| == |list|
    ensures forall i :: 0 <= i < |list| ==> ids[i] == list[i].setId
  {
    seq(|list|, i requires 0 <= i < |list| => list[i].setId)
  }

  /** Resetting the recorded set ids brings a matching GMP file back to the pristine snapshot. */
  lemma ResetGmpRestoresSnapshot(f: ExpandedGmpFile, list: seq<GmpManipulation>, snapshot: int -> nat, id: int)
    requires GmpFileMatches(Some(f), list, snapshot)
    ensures GmpValue(ResetGmpFile(f, SetIds(list), snapshot), id, snapshot) == snapshot(id)
  {
    if id !in SetIds(list) {
      assert GmpValue(f, id, snapshot) == GmpExpected(list, id, snapshot);
      assert forall j :: 0 <= j < |list| ==> GmpId(list[j]) != id by {
        forall j | 0 <= j < |list| ensures GmpId(list[j]) != id {
          assert SetIds(list)[j] == list[j].setId;
        }
      }
    }
  }

  /** The file a slot has, or the fresh copy `??=` would create. */
  function FileOrNew(f: Option<EstFile>, slot: EstType): (g: EstFile)
    requires f.Some? ==> f.value.slot == slot
    ensures g.slot == slot
  {
    if f.Some? then f.value else NewEstFile(slot)
  }

  /**
   * Recording `m` keeps every slot's file matching: the slot of `m` once `m`
   * is applied to its file (created if missing), every other slot as it is.
   */
  lemma ApplyEstKeepsMatch(f: Option<EstFile>, slot: EstType, list: seq<EstManipulation>, m: EstManipulation,
                           snapshot: (EstType, EstKey) -> int)
    requires EstFileMatches(f, slot, list, snapshot)
    ensures slot != m.slot ==> EstFileMatches(f, slot, AddOrReplace(list, m, EstId), snapshot)
    ensures slot == m.slot ==>
              EstFileMatches(Some(EstApply(m, FileOrNew(f, slot), snapshot).1), slot, AddOrReplace(list, m, EstId), snapshot)
  {
    var list' := AddOrReplace(list, m, EstId);
    forall k: EstKey
      ensures Lookup(list', (slot, k), EstId) == if (slot, k) == EstId(m) then Some(m) else Lookup(list, (slot, k), EstId)
    {
      LookupAfterAddOrReplace(list, m, EstId, (slot, k));
    }
    if slot != m.slot && f.None? {
      forall j | 0 <= j < |list'|
        ensures list'[j].slot != slot
      {
        assert list'[j] in list';
      }
    }
  }

  /**
   * Dropping the record of `m` and writing its default back keeps every
   * slot's file matching.
   */
  lemma RevertEstKeepsMatch(f: Option<EstFile>, slot: EstType, list: seq<EstManipulation>, m: EstManipulation,
                            snapshot: (EstType, EstKey) -> int)
    requires DistinctKeys(list, EstId) && EstFileMatches(f, slot, list, snapshot)
    requires Lookup(list, EstId(m), EstId).Some?
    ensures slot != m.slot ==> EstFileMatches(f, slot, Remove(list, m, EstId).1, snapshot)
    ensures slot == m.slot ==> f.Some?
    ensures slot == m.slot ==>
              EstFileMatches(Some(EstApply(EstManipulation(m.gender, m.race, m.slot, m.setId, snapshot(m.slot, EstKeyOf(m))), f.value, snapshot).1),
                             slot, Remove(list, m, EstId).1, snapshot)
  {
    var list' := Remove(list, m, EstId).1;
    forall k: EstKey
      ensures Lookup(list', (slot, k), EstId) == if (slot, k) == EstId(m) then None else Lookup(list, (slot, k), EstId)
    {
      LookupAfterRemove(list, m, EstId, (slot, k));
    }
    if slot != m.slot && f.None? {
      forall j | 0 <= j < |list'|
        ensures list'[j].slot != slot
      {
        assert list'[j] in list';
      }
    }
    if slot == m.slot {
      var found := Lookup(list, EstId(m), EstId).value;
      assert found in list && found.slot == slot;
    }
  }

  /** The same two facts for the GMP file. */
  lemma ApplyGmpKeepsMatch(f: Option<ExpandedGmpFile>, list: seq<GmpManipulation>, m: GmpManipulation, snapshot: int -> nat)
    requires GmpFileMatches(f, list, snapshot)
    ensures GmpFileMatches(Some(GmpApply(m, if f.Some? then f.value else NewGmpFile(), snapshot).1), AddOrReplace(list, m, GmpId), snapshot)
  {
    forall id ensures Lookup(AddOrReplace(list, m, GmpId), id, GmpId) == if id == m.setId then Some(m) else Lookup(list, id, GmpId) {
      LookupAfterAddOrReplace(list, m, GmpId, id);
    }
  }

  lemma RevertGmpKeepsMatch(f: Option<ExpandedGmpFile>, list: seq<GmpManipulation>, m: GmpManipulation, snapshot: int -> nat)
    requires DistinctKeys(list, GmpId) && GmpFileMatches(f, list, snapshot)
    requires Lookup(list, m.setId, GmpId).Some?
    ensures f.Some?
    ensures GmpFileMatches(Some(GmpApply(GmpManipulation(snapshot(m.setId), m.setId), f.value, snapshot).1),
                           Remove(list, m, GmpId).1, snapshot)
  {
    forall id ensures Lookup(Remove(list, m, GmpId).1, id, GmpId) == if id == m.setId then None else Lookup(list, id, GmpId) {
      LookupAfterRemove(list, m, GmpId, id);
    }
  }

  /** `file?.Reset()`: resets a file that exists, leaves a missing one missing. */
  function ResetIfPresent(f: Option<EstFile>): (g: Option<EstFile>)
    ensures g.Some? <==> f.Some?
  {
    if f.Some? then Some(ResetEstFile(f.value)) else None
  }

  /** A reset file with no records matches: both are the pristine snapshot. */
  lemma ResetEstMatches(f: Option<EstFile>, slot: EstType, snapshot: (EstType, EstKey) -> int)
    requires f.Some? ==> f.value.slot == slot
    ensures EstFileMatches(ResetIfPresent(f), slot, [], snapshot)
  {
  }

  // ---------------------------------------------------------------------------
  // The manager.

  class MetaManager {
    var estFaceFile: Option<EstFile>
    var estHairFile: Option<EstFile>
    var estBodyFile: Option<EstFile>
    var estHeadFile: Option<EstFile>
    var estManipulations: seq<EstManipulation>

    var gmpFile: Option<ExpandedGmpFile>
    var gmpManipulations: seq<GmpManipulation>

    /** `EstFile.GetDefault` and `ExpandedGmpFile.GetDefault`: the game's pristine tables. */
    const estSnapshot: (EstType, EstKey) -> int
    const gmpSnapshot: int -> nat

    /** The file field a slot selects; None for a slot the switch rejects. */
    function EstFileFor(slot: EstType): Option<EstFile>
      reads this
    {
      match slot
      case Hair => estHairFile
      case Face => estFaceFile
      case Body => estBodyFile
      case Head => estHeadFile
      case UnnamedEstType(_) => None
    }

    ghost predicate Valid()
      reads this
    {
      DistinctKeys(estManipulations, EstId) &&
      EstFileMatches(EstFileFor(Hair), Hair, estManipulations, estSnapshot) &&
      EstFileMatches(EstFileFor(Face), Face, estManipulations, estSnapshot) &&
      EstFileMatches(EstFileFor(Body), Body, estManipulations, estSnapshot) &&
      EstFileMatches(EstFileFor(Head), Head, estManipulations, estSnapshot) &&
      DistinctKeys(gmpManipulations, GmpId) &&
      GmpFileMatches(gmpFile, gmpManipulations, gmpSnapshot)
    }

    constructor (estDefaults: (EstType, EstKey) -> int, gmpDefaults: int -> nat)
      ensures Valid()
      ensures estSnapshot == estDefaults && gmpSnapshot == gmpDefaults
      ensures forall s :: EstFileFor(s).None?
      ensures estManipulations == [] && gmpFile.None? && gmpManipulations == []
    {
      estSnapshot, gmpSnapshot := estDefaults, gmpDefaults;
      estFaceFile, estHairFile, estBodyFile, estHeadFile := None, None, None, None;
      estManipulations := [];
      gmpFile, gmpManipulations := None, [];
    }

    /** The `??=` and the assignment of a file field: stores `f` in the field `slot` selects. */
    method SetEstFile(slot: EstType, f: EstFile)
      requires IsKnownEstType(slot)
      modifies this
      ensures EstFileFor(slot) == Some(f)
      ensures forall s :: s != slot ==> EstFileFor(s) == old(EstFileFor(s))
      ensures estManipulations == old(estManipulations)
      ensures gmpFile == old(gmpFile) && gmpManipulations == old(gmpManipulations)
    {
      match slot
      case Hair => estHairFile := Some(f);
      case Face => estFaceFile := Some(f);
      case Body => estBodyFile := Some(f);
      case Head => estHeadFile := Some(f);
    }

    /** `ResetEst`: resets the files that exist and forgets every record. */
    method ResetEst()
      requires Valid()
      modifies this
      ensures Valid()
      ensures forall s :: EstFileFor(s) == ResetIfPresent(old(EstFileFor(s)))
      ensures estManipulations == []
      ensures gmpFile == old(gmpFile) && gmpManipulations == old(gmpManipulations)
    {
      ResetEstMatches(EstFileFor(Hair), Hair, estSnapshot);
      ResetEstMatches(EstFileFor(Face), Face, estSnapshot);
      ResetEstMatches(EstFileFor(Body), Body, estSnapshot);
      ResetEstMatches(EstFileFor(Head), Head, estSnapshot);
      estFaceFile := ResetIfPresent(estFaceFile);
      estHairFile := ResetIfPresent(estHairFile);
      estBodyFile := ResetIfPresent(estBodyFile);
      estHeadFile := ResetIfPresent(estHeadFile);
      estManipulations := [];
    }

    /**
     * `ApplyMod(EstManipulation)`: records `m` (replacing an equal record),
     * creates the slot's file if needed and writes the entry.  `ok` is false
     * where the slot switch throws, after the record was made.
     */
    method ApplyEst(m: EstManipulation) returns (ok: bool, changed: bool)
      requires Valid()
      modifies this
      ensures Valid()
      ensures estManipulations == AddOrReplace(old(estManipulations), m, EstId)
      ensures ok <==> IsKnownEstType(m.slot)
      ensures ok ==> changed == (EstExpected(old(estManipulations), m.slot, EstKeyOf(m), estSnapshot) != m.entry)
      ensures ok ==> EstFileFor(m.slot).Some? && EstValue(EstFileFor(m.slot).value, EstKeyOf(m), estSnapshot) == m.entry
      ensures forall s :: s != m.slot ==> EstFileFor(s) == old(EstFileFor(s))
      ensures gmpFile == old(gmpFile) && gmpManipulations == old(gmpManipulations)
    {
      ApplyEstKeepsMatch(EstFileFor(Hair), Hair, estManipulations, m, estSnapshot);
      ApplyEstKeepsMatch(EstFileFor(Face), Face, estManipulations, m, estSnapshot);
      ApplyEstKeepsMatch(EstFileFor(Body), Body, estManipulations, m, estSnapshot);
      ApplyEstKeepsMatch(EstFileFor(Head), Head, estManipulations, m, estSnapshot);
      AddOrReplaceDistinct(estManipulations, m, EstId);
      estManipulations := AddOrReplace(estManipulations, m, EstId);
      if !IsKnownEstType(m.slot) {
        return false, false;
      }
      var r := EstApply(m, FileOrNew(EstFileFor(m.slot), m.slot), estSnapshot);
      SetEstFile(m.slot, r.1);
      ok, changed := true, r.0;
    }

    /**
     * `RevertMod(EstManipulation)`: when an equal record exists, drops it and
     * writes the slot's default back.  `ok` is false where the slot switch
     * throws, after the record was dropped.
     */
    method RevertEst(m: EstManipulation) returns (ok: bool, changed: bool)
      requires Valid()
      modifies this
      ensures Valid()
      ensures Lookup(old(estManipulations), EstId(m), EstId).None? ==>
                ok && !changed && estManipulations == old(estManipulations) &&
                forall s :: EstFileFor(s) == old(EstFileFor(s))
      ensures Lookup(old(estManipulations), EstId(m), EstId).Some? ==>
                estManipulations == Remove(old(estManipulations), m, EstId).1 &&
                (ok <==> IsKnownEstType(m.slot))
      ensures Lookup(old(estManipulations), EstId(m), EstId).Some? && ok ==>
                changed == (EstExpected(old(estManipulations), m.slot, EstKeyOf(m), estSnapshot) != estSnapshot(m.slot, EstKeyOf(m))) &&
                EstFileFor(m.slot).Some? &&
                EstValue(EstFileFor(m.slot).value, EstKeyOf(m), estSnapshot) == estSnapshot(m.slot, EstKeyOf(m))
      ensures forall s :: s != m.slot ==> EstFileFor(s) == old(EstFileFor(s))
      ensures gmpFile == old(gmpFile) && gmpManipulations == old(gmpManipulations)
    {
      var removed := Remove(estManipulations, m, EstId);
      if !removed.0 {
        return true, false;
      }
      RevertEstKeepsMatch(EstFileFor(Hair), Hair, estManipulations, m, estSnapshot);
      RevertEstKeepsMatch(EstFileFor(Face), Face, estManipulations, m, estSnapshot);
      RevertEstKeepsMatch(EstFileFor(Body), Body, estManipulations, m, estSnapshot);
      RevertEstKeepsMatch(EstFileFor(Head), Head, estManipulations, m, estSnapshot);
      LookupAfterRemove(estManipulations, m, EstId, EstId(m));
      estManipulations := removed.1;
      var def := estSnapshot(m.slot, EstKeyOf(m));
      var manip := EstManipulation(m.gender, m.race, m.slot, m.setId, def);
      if !IsKnownEstType(m.slot) {
        return false, false;
      }
      var r := EstApply(manip, EstFileFor(m.slot).value, estSnapshot);
      SetEstFile(m.slot, r.1);
      ok, changed := true, r.0;
    }

    /** `DisposeEst`: drops all four files and every record. */
    method DisposeEst()
      requires Valid()
      modifies this
      ensures Valid()
      ensures forall s :: EstFileFor(s).None?
      ensures estManipulations == []
      ensures gmpFile == old(gmpFile) && gmpManipulations == old(gmpManipulations)
    {
      estFaceFile, estHairFile, estBodyFile, estHeadFile := None, None, None, None;
      estManipulations := [];
    }

    /** `ResetGmp`: nothing without a file; otherwise resets the recorded set ids and forgets the records. */
    method ResetGmp()
      requires Valid()
      modifies this
      ensures Valid()
      ensures old(gmpFile).None? ==> gmpFile.None? && gmpManipulations == old(gmpManipulations)
      ensures old(gmpFile).Some? ==>
                gmpFile == Some(ResetGmpFile(old(gmpFile).value, SetIds(old(gmpManipulations)), gmpSnapshot)) &&
                gmpManipulations == []
      ensures gmpFile.Some? ==> forall id :: GmpValue(gmpFile.value, id, gmpSnapshot) == gmpSnapshot(id)
      ensures forall s :: EstFileFor(s) == old(EstFileFor(s))
      ensures estManipulations == old(estManipulations)
    {
      if gmpFile.None? {
        return;
      }
      forall id ensures GmpValue(ResetGmpFile(gmpFile.value, SetIds(gmpManipulations), gmpSnapshot), id, gmpSnapshot) == gmpSnapshot(id) {
        ResetGmpRestoresSnapshot(gmpFile.value, gmpManipulations, gmpSnapshot, id);
      }
      gmpFile := Some(ResetGmpFile(gmpFile.value, SetIds(gmpManipulations), gmpSnapshot));
      gmpManipulations := [];
    }

    /** `ApplyMod(GmpManipulation)`: records, allocates the file if needed and writes the entry. */
    method ApplyGmp(m: GmpManipulation) returns (changed: bool)
      requires Valid()
      modifies this
      ensures Valid()
      ensures gmpManipulations == AddOrReplace(old(gmpManipulations), m, GmpId)
      ensures changed == (GmpExpected(old(gmpManipulations), m.setId, gmpSnapshot) != m.entry)
      ensures gmpFile.Some? && GmpValue(gmpFile.value, m.setId, gmpSnapshot) == m.entry
      ensures forall s :: EstFileFor(s) == old(EstFileFor(s))
      ensures estManipulations == old(estManipulations)
    {
      ApplyGmpKeepsMatch(gmpFile, gmpManipulations, m, gmpSnapshot);
      AddOrReplaceDistinct(gmpManipulations, m, GmpId);
      gmpManipulations := AddOrReplace(gmpManipulations, m, GmpId);
      if gmpFile.None? {
        gmpFile := Some(NewGmpFile());
      }
      var r := GmpApply(m, gmpFile.value, gmpSnapshot);
      gmpFile := Some(r.1);
      changed := r.0;
    }

    /** `RevertMod(GmpManipulation)`: when an equal record exists, drops it and writes the default back. */
    method RevertGmp(m: GmpManipulation) returns (changed: bool)
      requires Valid()
      modifies this
      ensures Valid()
      ensures Lookup(old(gmpManipulations), m.setId, GmpId).None? ==>
                !changed && gmpManipulations == old(gmpManipulations) && gmpFile == old(gmpFile)
      ensures Lookup(old(gmpManipulations), m.setId, GmpId).Some? ==>
                gmpManipulations == Remove(old(gmpManipulations), m, GmpId).1 &&
                changed == (GmpExpected(old(gmpManipulations), m.setId, gmpSnapshot) != gmpSnapshot(m.setId)) &&
                gmpFile.Some? && GmpValue(gmpFile.value, m.setId, gmpSnapshot) == gmpSnapshot(m.setId)
      ensures forall s :: EstFileFor(s) == old(EstFileFor(s))
      ensures estManipulations == old(estManipulations)
    {
      var removed := Remove(gmpManipulations, m, GmpId);
      if !removed.0 {
        return false;
      }
      RevertGmpKeepsMatch(gmpFile, gmpManipulations, m, gmpSnapshot);
      LookupAfterRemove(gmpManipulations, m, GmpId, m.setId);
      gmpManipulations := removed.1;
      var manip := GmpManipulation(gmpSnapshot(m.setId), m.setId);
      var r := GmpApply(manip, gmpFile.value, gmpSnapshot);
      gmpFile := Some(r.1);
      changed := r.0;
    }

    /** `DisposeGmp`: no file and no records. */
    method DisposeGmp()
      requires Valid()
      modifies this
      ensures Valid()
      ensures gmpFile.None? && gmpManipulations == []
      ensures forall s :: EstFileFor(s) == old(EstFileFor(s))
      ensures estManipulations == old(estManipulations)
    {
      gmpFile, gmpManipulations := None, [];
    }
  }
}
