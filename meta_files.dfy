/**
 * The byte blobs the meta manipulations patch: the growable base buffer
 * (MetaBaseFile), the human.cmp racial scaling table (CmpFile), and the EST
 * and GMP tables, whose byte layout is not part of this model and which are
 * kept as value tables over their default snapshot.
 */
module MetaFiles {
  import opened Common
  import opened GameEnums

  /** A 4-byte little-endian word: the storage of one single-precision float. */
  type Float32 = s: seq<bv8> | |s| == 4 witness [0, 0, 0, 0]

  function ReadWord(s: seq<bv8>, off: nat): (w: Float32)
    requires off + 4 <= |s|
  {
    s[off..off + 4]
  }

  function WriteWord(s: seq<bv8>, off: nat, w: Float32): (r: seq<bv8>)
    requires off + 4 <= |s|
    ensures |r| == |s|
    ensures forall i :: 0 <= i < |s| && !(off <= i < off + 4) ==> r[i] == s[i]
    ensures forall i :: off <= i < off + 4 ==> r[i] == w[i - off]
  {
    s[..off] + w + s[off + 4..]
  }

  lemma ReadAfterWrite(s: seq<bv8>, off: nat, w: Float32, off2: nat)
    requires off + 4 <= |s| && off2 + 4 <= |s|
    ensures off2 == off ==> ReadWord(WriteWord(s, off, w), off2) == w
    ensures off2 + 4 <= off || off + 4 <= off2 ==> ReadWord(WriteWord(s, off, w), off2) == ReadWord(s, off2)
  {
    var r := WriteWord(s, off, w);
    if off2 == off {
      assert r[off..off + 4] == w;
    } else if off2 + 4 <= off || off + 4 <= off2 {
      assert r[off2..off2 + 4] == s[off2..off2 + 4];
    }
  }

  // ---------------------------------------------------------------------------
  // MetaBaseFile: Data and Length of an unmanaged buffer.

  class MetaBaseFile {
    var data: array?<bv8>
    var length: int

    ghost predicate Valid()
      reads this
    {
      if data == null then length == 0 else data.Length == length
    }

    ghost function Contents(): (s: seq<bv8>)
      reads this, data
      requires Valid()
      ensures |s| == length
    {
      if data == null then [] else data[..]
    }

    constructor ()
      ensures Valid() && data == null && length == 0
    {
      data := null;
      length := 0;
    }

    /** Obtains a buffer of `len` bytes; its initial contents are unspecified. */
    method AllocateData(len: nat)
      modifies this
      ensures Valid() && length == len
      ensures data != null && fresh(data)
    {
      length := len;
      data := new bv8[len];
    }

    /** Frees the buffer: afterwards there is no data and the length is zero. */
    method ReleaseUnmanagedResources()
      modifies this
      ensures Valid() && length == 0 && data == null
    {
      length := 0;
      data := null;
    }

    method Dispose()
      modifies this
      ensures Valid() && length == 0 && data == null
    {
      ReleaseUnmanagedResources();
    }

    /**
     * Moves the contents into a new buffer of `newLength` bytes: a grown buffer
     * keeps every old byte and is zero past them, a shrunk one keeps the prefix.
     */
    method ResizeResources(newLength: nat)
      requires Valid()
      modifies this
      ensures Valid() && length == newLength
      ensures newLength == old(length) ==> data == old(data)
      ensures newLength != old(length) ==> data != null && fresh(data)
      ensures newLength > old(length) ==>
                data[..old(length)] == old(Contents()) &&
                forall i :: old(length) <= i < newLength ==> data[i] == 0
      ensures newLength < old(length) ==> data[..] == old(Contents())[..newLength]
    {
      if newLength == length {
        return;
      }
      var buffer := new bv8[newLength];
      if newLength > length {
        var i := 0;
        while i < length
          invariant 0 <= i <= length
          invariant Valid() && data == old(data) && length == old(length)
          invariant forall k :: 0 <= k < i ==> buffer[k] == data[k]
        {
          buffer[i] := data[i];
          i := i + 1;
        }
        while i < newLength
          invariant length <= i <= newLength
          invariant Valid() && data == old(data) && length == old(length)
          invariant forall k :: 0 <= k < length ==> buffer[k] == data[k]
          invariant forall k :: length <= k < i ==> buffer[k] == 0
        {
          buffer[i] := 0;
          i := i + 1;
        }
      } else {
        var i := 0;
        while i < newLength
          invariant 0 <= i <= newLength
          invariant Valid() && data == old(data) && length == old(length)
          invariant forall k :: 0 <= k < i ==> buffer[k] == data[k]
        {
          buffer[i] := data[i];
          i := i + 1;
        }
      }
      ReleaseUnmanagedResources();
      data := buffer;
      length := newLength;
    }
  }

  // ---------------------------------------------------------------------------
  // CmpFile: racial scaling parameters inside human.cmp.

  const RacialScalingStart: nat := 0x2A800
  /** One RspEntry: a float per attribute. */
  const RspEntryByteSize: nat := 14 * 4
  /** One past the last byte any sub-race entry can occupy (index 71 is the largest). */
  const RacialScalingEnd: nat := RacialScalingStart + 72 * RspEntryByteSize

  /** The entry index of a sub-race inside the racial scaling table; None where the source throws. */
  function ToRspIndex(r: SubRace): (i: Option<nat>)
    ensures i.Some? <==> r == Unknown || IsNamedSubRace(r)
    ensures r == Unknown ==> i == Some(0)
    ensures IsNamedSubRace(r) ==> i == Some(10 * ((r as int - 1) / 2) + (r as int - 1) % 2)
    ensures i.Some? ==> i.value < 72
  {
    if r == Midlander then Some(0)
    else if r == Highlander then Some(1)
    else if r == Wildwood then Some(10)
    else if r == Duskwight then Some(11)
    else if r == Plainsfolk then Some(20)
    else if r == Dunesfolk then Some(21)
    else if r == SeekerOfTheSun then Some(30)
    else if r == KeeperOfTheMoon then Some(31)
    else if r == Seawolf then Some(40)
    else if r == Hellsguard then Some(41)
    else if r == Raen then Some(50)
    else if r == Xaela then Some(51)
    else if r == Helion then Some(60)
    else if r == Lost then Some(61)
    else if r == Rava then Some(70)
    else if r == Veena then Some(71)
    else if r == Unknown then Some(0)
    else None
  }

  /** Distinct named sub-races have distinct entries; Unknown shares Midlander's. */
  lemma ToRspIndexInjective(r1: SubRace, r2: SubRace)
    requires IsNamedSubRace(r1) && IsNamedSubRace(r2) && r1 != r2
    ensures ToRspIndex(r1) != ToRspIndex(r2)
  {
    var q1, m1 := (r1 as int - 1) / 2, (r1 as int - 1) % 2;
    var q2, m2 := (r2 as int - 1) / 2, (r2 as int - 1) % 2;
    assert r1 as int - 1 == 2 * q1 + m1 && r2 as int - 1 == 2 * q2 + m2;
  }

  /** The byte offset of (sub-race entry `idx`, attribute `a`) in human.cmp. */
  function SlotOffset(idx: nat, a: RspAttribute): nat {
    RacialScalingStart + idx * RspEntryByteSize + (a as int) * 4
  }

  /** Two different (entry, attribute) slots never share a byte. */
  lemma SlotsDisjoint(i1: nat, a1: RspAttribute, i2: nat, a2: RspAttribute)
    requires IsAttribute(a1) && IsAttribute(a2) && (i1 != i2 || a1 != a2)
    ensures SlotOffset(i1, a1) + 4 <= SlotOffset(i2, a2) || SlotOffset(i2, a2) + 4 <= SlotOffset(i1, a1)
  {
    var k1 := 14 * i1 + a1 as int;
    var k2 := 14 * i2 + a2 as int;
    assert SlotOffset(i1, a1) == RacialScalingStart + 4 * k1;
    assert SlotOffset(i2, a2) == RacialScalingStart + 4 * k2;
    if k1 == k2 {
      if i1 < i2 {
        assert 14 * i1 + 14 <= 14 * i2;
      } else if i2 < i1 {
        assert 14 * i2 + 14 <= 14 * i1;
      }
    }
  }

  lemma SlotInTable(idx: nat, a: RspAttribute)
    requires idx < 72 && IsAttribute(a)
    ensures RacialScalingStart <= SlotOffset(idx, a) && SlotOffset(idx, a) + 4 <= RacialScalingEnd
  {
    assert idx * RspEntryByteSize <= 71 * RspEntryByteSize;
  }

  /** `CmpFile.GetDefault`: the same slot read from the pristine snapshot. */
  function GetDefault(defaults: seq<bv8>, r: SubRace, a: RspAttribute): (v: Option<Float32>)
    requires RacialScalingEnd <= |defaults| && IsAttribute(a)
    ensures v.Some? <==> ToRspIndex(r).Some?
    ensures v.Some? ==> v.value == ReadWord(defaults, SlotOffset(ToRspIndex(r).value, a))
  {
    match ToRspIndex(r)
    case None => None
    case Some(idx) =>
      SlotInTable(idx, a);
      Some(ReadWord(defaults, SlotOffset(idx, a)))
  }

  /** Whether byte `k` lies in the four bytes of the slot `e` names. */
  predicate SlotCovers(e: (SubRace, RspAttribute), k: int) {
    ToRspIndex(e.0).Some? &&
    SlotOffset(ToRspIndex(e.0).value, e.1) <= k < SlotOffset(ToRspIndex(e.0).value, e.1) + 4
  }

  /** Some listed slot of `entries` covers byte `k`. */
  ghost predicate ListedSlotCovers(entries: seq<(SubRace, RspAttribute)>, k: int) {
    exists j :: 0 <= j < |entries| && SlotCovers(entries[j], k)
  }

  /** The slot `e` of `s` holds the same word as in the snapshot `d`. */
  predicate SlotIsDefault(s: seq<bv8>, d: seq<bv8>, e: (SubRace, RspAttribute))
    requires RacialScalingEnd <= |s| && RacialScalingEnd <= |d| && IsAttribute(e.1)
  {
    ToRspIndex(e.0).Some? &&
    var off := SlotOffset(ToRspIndex(e.0).value, e.1);
    SlotInTable(ToRspIndex(e.0).value, e.1);
    ReadWord(s, off) == ReadWord(d, off)
  }

  /** `s` with the slot `e` overwritten by its word in the snapshot `d`. */
  function ResetSlot(s: seq<bv8>, d: seq<bv8>, e: (SubRace, RspAttribute)): (r: seq<bv8>)
    requires RacialScalingEnd <= |s| && RacialScalingEnd <= |d| && IsAttribute(e.1) && ToRspIndex(e.0).Some?
    ensures |r| == |s|
  {
    var off := SlotOffset(ToRspIndex(e.0).value, e.1);
    SlotInTable(ToRspIndex(e.0).value, e.1);
    WriteWord(s, off, ReadWord(d, off))
  }

  /** A slot covered by a prefix of the entries is covered by the whole list. */
  lemma PrefixCovers(entries: seq<(SubRace, RspAttribute)>, j: nat, k: int)
    requires j <= |entries| && ListedSlotCovers(entries[..j], k)
    ensures ListedSlotCovers(entries, k)
  {
    var i :| 0 <= i < j && SlotCovers(entries[..j][i], k);
    assert entries[..j][i] == entries[i];
  }

  lemma NotCoveredByPrefix(entries: seq<(SubRace, RspAttribute)>, j: nat, k: int)
    requires j <= |entries| && !ListedSlotCovers(entries, k)
    ensures !ListedSlotCovers(entries[..j], k)
  {
    if ListedSlotCovers(entries[..j], k) {
      PrefixCovers(entries, j, k);
    }
  }

  /** Bytes outside the slots of a prefix are in particular outside the slots of the whole list. */
  lemma UntouchedOutsidePrefix(s: seq<bv8>, orig: seq<bv8>, entries: seq<(SubRace, RspAttribute)>, j: nat)
    requires |s| == |orig| && j <= |entries|
    requires forall k :: 0 <= k < |s| && !ListedSlotCovers(entries[..j], k) ==> s[k] == orig[k]
    ensures forall k :: 0 <= k < |s| && !ListedSlotCovers(entries, k) ==> s[k] == orig[k]
  {
    forall k | 0 <= k < |s| && !ListedSlotCovers(entries, k)
      ensures s[k] == orig[k]
    {
      if ListedSlotCovers(entries[..j], k) {
        PrefixCovers(entries, j, k);
      }
    }
  }

  /**
   * One step of `Reset(entries)`: writing the default of slot `entries[j]`
   * keeps the slots reset so far at their defaults, and bytes outside every
   * slot of `entries[..j + 1]` keep their original value.
   */
  lemma ResetStep(s: seq<bv8>, d: seq<bv8>, orig: seq<bv8>, entries: seq<(SubRace, RspAttribute)>, j: nat)
    requires RacialScalingEnd <= |s| == |d| == |orig|
    requires j < |entries| && forall i :: 0 <= i < |entries| ==> IsAttribute(entries[i].1)
    requires ToRspIndex(entries[j].0).Some?
    requires forall i :: 0 <= i < j ==> SlotIsDefault(s, d, entries[i])
    requires forall k :: 0 <= k < |s| && !ListedSlotCovers(entries[..j], k) ==> s[k] == orig[k]
    ensures forall i :: 0 <= i <= j ==> SlotIsDefault(ResetSlot(s, d, entries[j]), d, entries[i])
    ensures forall k :: 0 <= k < |s| && !ListedSlotCovers(entries[..j + 1], k) ==> ResetSlot(s, d, entries[j])[k] == orig[k]
  {
    var e := entries[j];
    var idx := ToRspIndex(e.0).value;
    SlotInTable(idx, e.1);
    var off := SlotOffset(idx, e.1);
    var s' := ResetSlot(s, d, e);
    forall i | 0 <= i <= j
      ensures SlotIsDefault(s', d, entries[i])
    {
      if i == j {
        ReadAfterWrite(s, off, ReadWord(d, off), off);
      } else {
        var e2 := entries[i];
        var idx2 := ToRspIndex(e2.0).value;
        SlotInTable(idx2, e2.1);
        if idx2 != idx || e2.1 != e.1 {
          SlotsDisjoint(idx, e.1, idx2, e2.1);
          ReadAfterWrite(s, off, ReadWord(d, off), SlotOffset(idx2, e2.1));
        } else {
          ReadAfterWrite(s, off, ReadWord(d, off), off);
        }
      }
    }
    var all := entries[..j + 1];
    forall k | 0 <= k < |s| && !ListedSlotCovers(all, k)
      ensures s'[k] == orig[k]
    {
      assert all[j] == e;
      assert !SlotCovers(e, k);
      assert all[..j] == entries[..j];
      NotCoveredByPrefix(all, j, k);
    }
  }


  class CmpFile {
    /** The MetaBaseFile part: Data and Length. */
    const base: MetaBaseFile
    /** The default human.cmp resource the file is seeded from. */
    const defaults: seq<bv8>

    ghost predicate Valid()
      reads this, base
    {
      base.Valid() && base.data != null && base.length == |defaults| && RacialScalingEnd <= |defaults|
    }

    /** The indexer's getter; None where `ToRspIndex` throws. */
    function Get(r: SubRace, a: RspAttribute): (v: Option<Float32>)
      reads this, base, base.data
      requires Valid() && IsAttribute(a)
      ensures v.Some? <==> ToRspIndex(r).Some?
      ensures v.Some? ==> v.value == ReadWord(base.data[..], SlotOffset(ToRspIndex(r).value, a))
    {
      match ToRspIndex(r)
      case None => None
      case Some(idx) =>
        SlotInTable(idx, a);
        Some(base.data[SlotOffset(idx, a)..SlotOffset(idx, a) + 4])
    }

    /**
     * The indexer's setter.  It writes the four bytes of the slot and nothing
     * else, so a following `Get` of the same slot returns `value`.
     */
    method Set(r: SubRace, a: RspAttribute, value: Float32) returns (ok: bool)
      requires Valid() && IsAttribute(a)
      modifies base.data
      ensures Valid()
      ensures ok <==> ToRspIndex(r).Some?
      ensures !ok ==> base.data[..] == old(base.data[..])
      ensures ok ==> base.data[..] == WriteWord(old(base.data[..]), SlotOffset(ToRspIndex(r).value, a), value)
      ensures ok ==> Get(r, a) == Some(value)
    {
      var idx := ToRspIndex(r);
      if idx.None? {
        return false;
      }
      SlotInTable(idx.value, a);
      var off := SlotOffset(idx.value, a);
      ghost var before := base.data[..];
      base.data[off] := value[0];
      base.data[off + 1] := value[1];
      base.data[off + 2] := value[2];
      base.data[off + 3] := value[3];
      assert base.data[..] == WriteWord(before, off, value);
      ReadAfterWrite(before, off, value, off);
      return true;
    }

    /** `Reset()`: copies the whole default snapshot back into Data. */
    method Reset()
      requires Valid()
      modifies base.data
      ensures Valid() && base.data[..] == defaults
    {
      var i := 0;
      while i < |defaults|
        invariant 0 <= i <= |defaults|
        invariant forall k :: 0 <= k < i ==> base.data[k] == defaults[k]
      {
        base.data[i] := defaults[i];
        i := i + 1;
      }
    }

    /**
     * `Reset(entries)`: writes each listed slot's default, in order.  It stops
     * at the first entry whose sub-race the table rejects (the source throws
     * there, after the earlier writes); bytes of no listed slot never change.
     */
    method ResetEntries(entries: seq<(SubRace, RspAttribute)>) returns (ok: bool)
      requires Valid()
      requires forall j :: 0 <= j < |entries| ==> IsAttribute(entries[j].1)
      modifies base.data
      ensures Valid()
      ensures ok <==> forall j :: 0 <= j < |entries| ==> ToRspIndex(entries[j].0).Some?
      ensures ok ==> forall j :: 0 <= j < |entries| ==>
                Get(entries[j].0, entries[j].1) == GetDefault(defaults, entries[j].0, entries[j].1)
      ensures forall k :: 0 <= k < base.length && !ListedSlotCovers(entries, k) ==> base.data[k] == old(base.data[k])
    {
      ghost var orig := base.data[..];
      var j := 0;
      while j < |entries|
        invariant 0 <= j <= |entries|
        invariant Valid()
        invariant forall i :: 0 <= i < j ==> SlotIsDefault(base.data[..], defaults, entries[i])
        invariant forall k :: 0 <= k < base.length && !ListedSlotCovers(entries[..j], k) ==> base.data[k] == orig[k]
      {
        var (r, a) := entries[j];
        var def := GetDefault(defaults, r, a);
        if def.None? {
          UntouchedOutsidePrefix(base.data[..], orig, entries, j);
          return false;
        }
        ResetStep(base.data[..], defaults, orig, entries, j);
        var _ := Set(r, a, def.value);
        j := j + 1;
      }
      assert entries[..j] == entries;
      AllDefaultsRead(entries);
      return true;
    }

    /** Every listed slot holding its snapshot word reads back as `GetDefault`. */
    lemma AllDefaultsRead(entries: seq<(SubRace, RspAttribute)>)
      requires Valid()
      requires forall j :: 0 <= j < |entries| ==> IsAttribute(entries[j].1)
      requires forall i :: 0 <= i < |entries| ==> SlotIsDefault(base.data[..], defaults, entries[i])
      ensures forall j :: 0 <= j < |entries| ==> ToRspIndex(entries[j].0).Some?
      ensures forall j :: 0 <= j < |entries| ==>
                Get(entries[j].0, entries[j].1) == GetDefault(defaults, entries[j].0, entries[j].1)
    {
      forall i | 0 <= i < |entries|
        ensures ToRspIndex(entries[i].0).Some?
        ensures Get(entries[i].0, entries[i].1) == GetDefault(defaults, entries[i].0, entries[i].1)
      {
        GetOfDefaultSlot(entries[i]);
      }
    }

    /** A slot holding its snapshot word reads back as `GetDefault`. */
    lemma GetOfDefaultSlot(e: (SubRace, RspAttribute))
      requires Valid() && IsAttribute(e.1) && SlotIsDefault(base.data[..], defaults, e)
      ensures ToRspIndex(e.0).Some? && Get(e.0, e.1) == GetDefault(defaults, e.0, e.1)
    {
    }

    /** A new file is a byte-for-byte copy of the default snapshot. */
    constructor (snapshot: seq<bv8>)
      requires RacialScalingEnd <= |snapshot|
      ensures Valid() && fresh(base) && fresh(base.data)
      ensures defaults == snapshot && base.data[..] == snapshot
    {
      defaults := snapshot;
      var b := new MetaBaseFile();
      base := b;
      new;
      b.AllocateData(|snapshot|);
      Reset();
    }
  }

  // ---------------------------------------------------------------------------
  // EST and GMP tables, as values over their default snapshot.

  /** The address of one EST entry: the combined gender-race and the set id. */
  datatype EstKey = EstKey(gender: int, race: int, setId: int)

  /** An EST file of one slot: the entries written into its copy of the snapshot. */
  datatype EstFile = EstFile(slot: EstType, written: map<EstKey, int>)

  /** The value an EST file holds at `k`, given the default snapshot. */
  function EstValue(f: EstFile, k: EstKey, snapshot: (EstType, EstKey) -> int): int {
    if k in f.written then f.written[k] else snapshot(f.slot, k)
  }

  /** `new EstFile(slot)`: a fresh copy of the default snapshot. */
  function NewEstFile(slot: EstType): (f: EstFile)
    ensures f.slot == slot
    ensures forall k, snapshot: (EstType, EstKey) -> int :: EstValue(f, k, snapshot) == snapshot(slot, k)
  {
    EstFile(slot, map[])
  }

  /** `EstFile.Reset()`: every entry back to the snapshot. */
  function ResetEstFile(f: EstFile): (g: EstFile)
    ensures g.slot == f.slot
    ensures forall k, snapshot: (EstType, EstKey) -> int :: EstValue(g, k, snapshot) == snapshot(f.slot, k)
  {
    EstFile(f.slot, map[])
  }

  /** The expanded GMP file: the entries written into its copy of the snapshot, by set id. */
  datatype ExpandedGmpFile = ExpandedGmpFile(written: map<int, nat>)

  function GmpValue(f: ExpandedGmpFile, setId: int, snapshot: int -> nat): nat {
    if setId in f.written then f.written[setId] else snapshot(setId)
  }

  function NewGmpFile(): (f: ExpandedGmpFile)
    ensures forall id, snapshot: int -> nat :: GmpValue(f, id, snapshot) == snapshot(id)
  {
    ExpandedGmpFile(map[])
  }

  /** `ExpandedGmpFile.Reset(setIds)`: writes the default at each listed set id and nowhere else. */
  function ResetGmpFile(f: ExpandedGmpFile, setIds: seq<int>, snapshot: int -> nat): (g: ExpandedGmpFile)
    ensures forall id :: id in setIds ==> GmpValue(g, id, snapshot) == snapshot(id)
    ensures forall id :: id !in setIds ==> GmpValue(g, id, snapshot) == GmpValue(f, id, snapshot)
    decreases |setIds|
  {
    if setIds == [] then f
    else
      var g := ResetGmpFile(f, setIds[1..], snapshot);
      ExpandedGmpFile(g.written[setIds[0] := snapshot(setIds[0])])
  }
}
