/**
 * Meta manipulations: one patch to one entry of a game meta file.  A
 * manipulation is identified by its key fields (which entry it patches) and
 * carries an `entry` (the value it writes).  `MetaManipulation` is the tagged
 * union over the six categories; the source overlays the payloads at one
 * offset and keeps a type byte, which here is a true datatype.
 */
module MetaManipulations {
  import opened Common
  import opened GameEnums
  import opened MetaFiles

  // ---------------------------------------------------------------------------
  // The category payloads.  Only RSP is defined in the modelled sources; the
  // others keep the fields the meta stores use (EST, GMP) or a single key.

  datatype EqpManipulation = EqpManipulation(setId: int, slot: int, entry: int)
  datatype EqdpManipulation = EqdpManipulation(gender: int, race: int, setId: int, slot: int, entry: int)
  datatype ImcManipulation = ImcManipulation(objectType: int, primaryId: int, secondaryId: int, variant: int, entry: int)
  datatype EstManipulation = EstManipulation(gender: int, race: int, slot: EstType, setId: int, entry: int)
  datatype GmpManipulation = GmpManipulation(entry: nat, setId: int)
  datatype RspManipulation = RspManipulation(subRace: SubRace, attribute: RspAttribute, entry: Float32)

  /** The key fields of a payload, the arguments of its `HashCode.Combine`. */
  function EqpKey(m: EqpManipulation): seq<int> { [m.setId, m.slot] }
  function EqdpKey(m: EqdpManipulation): seq<int> { [m.gender, m.race, m.setId, m.slot] }
  function ImcKey(m: ImcManipulation): seq<int> { [m.objectType, m.primaryId, m.secondaryId, m.variant] }
  function EstKeyFields(m: EstManipulation): (k: seq<int>)
    ensures |k| == 4
  {
    [m.gender, m.race, EstTypeCode(m.slot), m.setId]
  }
  function GmpKey(m: GmpManipulation): seq<int> { [m.setId] }

  /**
   * A distinct number per EST slot, for keys and hashing: the unnamed byte
   * values keep their byte, the four named slots are numbered past them.
   */
  function EstTypeCode(t: EstType): (c: int)
    ensures 0 <= c < 260
    ensures c < 256 <==> t.UnnamedEstType?
  {
    match t
    case Hair => 256
    case Face => 257
    case Body => 258
    case Head => 259
    case UnnamedEstType(code) => code as int
  }

  // ---------------------------------------------------------------------------
  // RspManipulation.

  /** `RspManipulation.Equals`: the slot fields only; the entry is ignored. */
  predicate RspEquals(a: RspManipulation, b: RspManipulation)
    ensures RspEquals(a, b) <==> a.(entry := b.entry) == b
  {
    a.subRace == b.subRace && a.attribute == b.attribute
  }

  /** `RspManipulation.GetHashCode`, given the runtime's `HashCode.Combine`. */
  function RspHash(m: RspManipulation, combine: seq<int> -> int): int {
    combine([m.subRace as int, m.attribute as int])
  }

  lemma RspHashConsistent(a: RspManipulation, b: RspManipulation, combine: seq<int> -> int)
    requires RspEquals(a, b)
    ensures RspHash(a, combine) == RspHash(b, combine)
  {
  }

  /**
   * `RspManipulation.CompareTo`: the sub-races compared first, the attribute
   * breaking ties.  A byte-backed enum compares as the difference of the
   * underlying bytes.
   */
  function RspCompareTo(a: RspManipulation, b: RspManipulation): (r: int)
    ensures r == 0 <==> RspEquals(a, b)
    ensures r < 0 <==> a.subRace < b.subRace || (a.subRace == b.subRace && a.attribute < b.attribute)
    ensures r > 0 <==> a.subRace > b.subRace || (a.subRace == b.subRace && a.attribute > b.attribute)
  {
    var s := a.subRace as int - b.subRace as int;
    if s != 0 then s else a.attribute as int - b.attribute as int
  }

  /** The game files a manipulation can target. */
  datatype CharacterUtilityIndex = HumanCmp | OtherFile(code: int)

  /** `RspManipulation.FileIndex`: every RSP manipulation patches human.cmp. */
  function RspFileIndex(m: RspManipulation): (i: CharacterUtilityIndex)
    ensures i == HumanCmp
  {
    HumanCmp
  }

  /**
   * `RspManipulation.Apply`: writes `entry` into the file's slot unless the
   * slot already holds it, and reports whether anything changed.  `ok` is
   * false where the indexer throws (a sub-race with no table entry); then
   * nothing was written.
   */
  method RspApply(m: RspManipulation, file: CmpFile) returns (ok: bool, changed: bool)
    requires file.Valid() && IsAttribute(m.attribute)
    modifies file.base.data
    ensures file.Valid()
    ensures ok <==> ToRspIndex(m.subRace).Some?
    ensures !ok ==> !changed && file.base.data[..] == old(file.base.data[..])
    ensures ok && old(file.Get(m.subRace, m.attribute)) == Some(m.entry) ==>
              !changed && file.base.data[..] == old(file.base.data[..])
    ensures ok && old(file.Get(m.subRace, m.attribute)) != Some(m.entry) ==>
              changed && file.base.data[..] ==
                WriteWord(old(file.base.data[..]), SlotOffset(ToRspIndex(m.subRace).value, m.attribute), m.entry)
    ensures ok ==> file.Get(m.subRace, m.attribute) == Some(m.entry)
  {
    var value := file.Get(m.subRace, m.attribute);
    if value.None? {
      return false, false;
    }
    if value.value == m.entry {
      return true, false;
    }
    var _ := file.Set(m.subRace, m.attribute, m.entry);
    return true, true;
  }

  // ---------------------------------------------------------------------------
  // Apply for the EST and GMP payloads, on the value tables of MetaFiles.

  function EstKeyOf(m: EstManipulation): EstKey {
    EstKey(m.gender, m.race, m.setId)
  }

  /** `EstManipulation.Apply`: writes the entry unless the file already holds it; reports a change. */
  function EstApply(m: EstManipulation, f: EstFile, snapshot: (EstType, EstKey) -> int): (r: (bool, EstFile))
    ensures r.1.slot == f.slot
    ensures EstValue(r.1, EstKeyOf(m), snapshot) == m.entry
    ensures r.0 <==> EstValue(f, EstKeyOf(m), snapshot) != m.entry
    ensures forall k :: k != EstKeyOf(m) ==> EstValue(r.1, k, snapshot) == EstValue(f, k, snapshot)
  {
    if EstValue(f, EstKeyOf(m), snapshot) == m.entry then (false, f)
    else (true, EstFile(f.slot, f.written[EstKeyOf(m) := m.entry]))
  }

  /** `GmpManipulation.Apply`: the same, on the expanded GMP file. */
  function GmpApply(m: GmpManipulation, f: ExpandedGmpFile, snapshot: int -> nat): (r: (bool, ExpandedGmpFile))
    ensures GmpValue(r.1, m.setId, snapshot) == m.entry
    ensures r.0 <==> GmpValue(f, m.setId, snapshot) != m.entry
    ensures forall id :: id != m.setId ==> GmpValue(r.1, id, snapshot) == GmpValue(f, id, snapshot)
  {
    if GmpValue(f, m.setId, snapshot) == m.entry then (false, f)
    else (true, ExpandedGmpFile(f.written[m.setId := m.entry]))
  }

  // ---------------------------------------------------------------------------
  // MetaManipulation: the tagged union.

  /** The `Type` byte.  Out-of-range values behave as Unknown everywhere. */
  datatype ManipulationType = UnknownKind | ImcKind | EqdpKind | EqpKind | EstKind | GmpKind | RspKind

  /**
   * A manipulation of one category; `Unknown` is the default struct.  Each
   * constructor is the source's constructor and implicit conversion from
   * that payload.
   */
  datatype MetaManipulation =
    | Unknown
    | Imc(imc: ImcManipulation)
    | Eqdp(eqdp: EqdpManipulation)
    | Eqp(eqp: EqpManipulation)
    | Est(est: EstManipulation)
    | Gmp(gmp: GmpManipulation)
    | Rsp(rsp: RspManipulation)

  /** `ManipulationType`. */
  function TypeOf(m: MetaManipulation): (t: ManipulationType)
    ensures t == UnknownKind <==> m.Unknown?
    ensures t == ImcKind <==> m.Imc?
    ensures t == EqdpKind <==> m.Eqdp?
    ensures t == EqpKind <==> m.Eqp?
    ensures t == RspKind <==> m.Rsp?
    ensures t == EstKind <==> m.Est?
    ensures t == GmpKind <==> m.Gmp?
  {
    match m
    case Unknown => UnknownKind
    case Imc(_) => ImcKind
    case Eqdp(_) => EqdpKind
    case Eqp(_) => EqpKind
    case Est(_) => EstKind
    case Gmp(_) => GmpKind
    case Rsp(_) => RspKind
  }

  /** A boxed `object?`: null, one of the payloads, or an object of any other type. */
  datatype BoxedObject =
    | Null
    | BoxedImc(imc: ImcManipulation)
    | BoxedEqdp(eqdp: EqdpManipulation)
    | BoxedEqp(eqp: EqpManipulation)
    | BoxedEst(est: EstManipulation)
    | BoxedGmp(gmp: GmpManipulation)
    | BoxedRsp(rsp: RspManipulation)
    | OtherObject

  /** The `Manipulation` getter: the payload of the tagged category, null for Unknown. */
  function Manipulation(m: MetaManipulation): (o: BoxedObject)
    ensures o.Null? <==> m.Unknown?
    ensures !o.OtherObject?
  {
    match m
    case Unknown => Null
    case Imc(x) => BoxedImc(x)
    case Eqdp(x) => BoxedEqdp(x)
    case Eqp(x) => BoxedEqp(x)
    case Est(x) => BoxedEst(x)
    case Gmp(x) => BoxedGmp(x)
    case Rsp(x) => BoxedRsp(x)
  }

  /**
   * The `Manipulation` init setter applied to a default struct: a payload sets
   * its category; null or any other object leaves the manipulation Unknown.
   */
  function FromObject(o: BoxedObject): (m: MetaManipulation)
    ensures m.Unknown? <==> o.Null? || o.OtherObject?
  {
    match o
    case BoxedImc(x) => Imc(x)
    case BoxedEqdp(x) => Eqdp(x)
    case BoxedEqp(x) => Eqp(x)
    case BoxedEst(x) => Est(x)
    case BoxedGmp(x) => Gmp(x)
    case BoxedRsp(x) => Rsp(x)
    case Null => Unknown
    case OtherObject => Unknown
  }

  /** Reading the payload back and initialising from it restores the manipulation. */
  lemma ManipulationRoundTrip(m: MetaManipulation)
    ensures FromObject(Manipulation(m)) == m
  {
  }

  /** Initialising from a payload and reading it back returns that payload. */
  lemma FromObjectRoundTrip(o: BoxedObject)
    requires !o.Null? && !o.OtherObject?
    ensures Manipulation(FromObject(o)) == o
  {
  }

  /**
   * The identity of a manipulation: its category and key fields, with the
   * entry left out.  The meta dictionaries of the cache are keyed by this.
   */
  datatype ManipKey = ManipKey(kind: ManipulationType, fields: seq<int>)

  function Key(m: MetaManipulation): (k: ManipKey)
    ensures k.kind == TypeOf(m)
  {
    match m
    case Unknown => ManipKey(UnknownKind, [])
    case Imc(x) => ManipKey(ImcKind, ImcKey(x))
    case Eqdp(x) => ManipKey(EqdpKind, EqdpKey(x))
    case Eqp(x) => ManipKey(EqpKind, EqpKey(x))
    case Est(x) => ManipKey(EstKind, EstKeyFields(x))
    case Gmp(x) => ManipKey(GmpKind, GmpKey(x))
    case Rsp(x) => ManipKey(RspKind, [x.subRace as int, x.attribute as int])
  }

  /**
   * `MetaManipulation.Equals`: false across categories, the category's own
   * (key-field) equality within one; None where the source throws, i.e. when
   * both are Unknown.
   */
  function Equals(a: MetaManipulation, b: MetaManipulation): (r: Option<bool>)
    ensures r.None? <==> a.Unknown? && b.Unknown?
    ensures TypeOf(a) != TypeOf(b) ==> r == Some(false)
  {
    if TypeOf(a) != TypeOf(b) then Some(false)
    else match a
      case Unknown => None
      case Imc(x) => Some(ImcKey(x) == ImcKey(b.imc))
      case Eqdp(x) => Some(EqdpKey(x) == EqdpKey(b.eqdp))
      case Eqp(x) => Some(EqpKey(x) == EqpKey(b.eqp))
      case Est(x) => Some(EstKeyFields(x) == EstKeyFields(b.est))
      case Gmp(x) => Some(GmpKey(x) == GmpKey(b.gmp))
      case Rsp(x) => Some(RspEquals(x, b.rsp))
  }

  lemma EstTypeCodeInjective(s: EstType, t: EstType)
    requires EstTypeCode(s) == EstTypeCode(t)
    ensures s == t
  {
  }

  /** Two known manipulations are Equal exactly when their keys are. */
  lemma EqualsIffSameKey(a: MetaManipulation, b: MetaManipulation)
    requires !a.Unknown? || !b.Unknown?
    ensures Equals(a, b) == Some(Key(a) == Key(b))
  {
    if a.Est? && b.Est? && Key(a) == Key(b) {
      assert EstKeyFields(a.est)[2] == EstKeyFields(b.est)[2];
      EstTypeCodeInjective(a.est.slot, b.est.slot);
    }
  }

  /** Equality is symmetric (where it does not throw). */
  lemma EqualsSymmetric(a: MetaManipulation, b: MetaManipulation)
    requires !a.Unknown? || !b.Unknown?
    ensures Equals(a, b) == Equals(b, a)
  {
    EqualsIffSameKey(a, b);
    EqualsIffSameKey(b, a);
  }

  /** The entry of a manipulation, the patch value `EntryEquals` compares. */
  datatype EntryValue = IntEntry(i: int) | FloatEntry(f: Float32)

  /** `EntryEquals`: false across categories; within one, only the entries are compared. */
  function EntryEquals(a: MetaManipulation, b: MetaManipulation): (r: Option<bool>)
    ensures r.None? <==> a.Unknown? && b.Unknown?
    ensures TypeOf(a) != TypeOf(b) ==> r == Some(false)
    ensures a.Rsp? && b.Rsp? ==> r == Some(a.rsp.entry == b.rsp.entry)
  {
    if TypeOf(a) != TypeOf(b) then Some(false)
    else match a
      case Unknown => None
      case Imc(x) => Some(x.entry == b.imc.entry)
      case Eqdp(x) => Some(x.entry == b.eqdp.entry)
      case Eqp(x) => Some(x.entry == b.eqp.entry)
      case Est(x) => Some(x.entry == b.est.entry)
      case Gmp(x) => Some(x.entry == b.gmp.entry)
      case Rsp(x) => Some(x.entry == b.rsp.entry)
  }

  /** A manipulation equal to another and with the same entry is the same value. */
  lemma EqualsAndEntryEqualsIsIdentity(a: MetaManipulation, b: MetaManipulation)
    requires Equals(a, b) == Some(true) && EntryEquals(a, b) == Some(true)
    ensures a == b
  {
    EqualsIffSameKey(a, b);
    if a.Est? {
      assert EstKeyFields(a.est)[2] == EstKeyFields(b.est)[2];
      EstTypeCodeInjective(a.est.slot, b.est.slot);
    }
  }

  /** `GetHashCode`: the category's hash of its key fields; None for Unknown. */
  function GetHashCode(m: MetaManipulation, combine: seq<int> -> int): (r: Option<int>)
    ensures r.None? <==> m.Unknown?
    ensures m.Rsp? ==> r == Some(RspHash(m.rsp, combine))
  {
    if m.Unknown? then None else Some(combine(Key(m).fields))
  }

  /** Equal manipulations hash equally, for any hash combiner. */
  lemma HashConsistentWithEquals(a: MetaManipulation, b: MetaManipulation, combine: seq<int> -> int)
    requires Equals(a, b) == Some(true)
    ensures GetHashCode(a, combine) == GetHashCode(b, combine)
  {
    EqualsIffSameKey(a, b);
  }
}
