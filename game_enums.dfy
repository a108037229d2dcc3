/**
 * The byte-valued game enumerations the meta files are addressed by.  A C#
 * enum may hold any value of its underlying type, so each is a byte newtype
 * with its declared members as named constants; values outside the declared
 * members are what the source's `_ => throw` arms catch.
 */
module GameEnums {

  newtype SubRace = x: int | 0 <= x < 256

  const Unknown: SubRace := 0
  const Midlander: SubRace := 1
  const Highlander: SubRace := 2
  const Wildwood: SubRace := 3
  const Duskwight: SubRace := 4
  const Plainsfolk: SubRace := 5
  const Dunesfolk: SubRace := 6
  const SeekerOfTheSun: SubRace := 7
  const KeeperOfTheMoon: SubRace := 8
  const Seawolf: SubRace := 9
  const Hellsguard: SubRace := 10
  const Raen: SubRace := 11
  const Xaela: SubRace := 12
  const Helion: SubRace := 13
  const Lost: SubRace := 14
  const Rava: SubRace := 15
  const Veena: SubRace := 16

  /** The sixteen playable sub-races (every declared member except Unknown). */
  predicate IsNamedSubRace(r: SubRace) {
    Midlander <= r <= Veena
  }

  /** The racial scaling attributes of one human.cmp entry, in slot order. */
  newtype RspAttribute = x: int | 0 <= x < 256

  const MaleMinSize: RspAttribute := 0
  const MaleMaxSize: RspAttribute := 1
  const MaleMinTail: RspAttribute := 2
  const MaleMaxTail: RspAttribute := 3
  const FemaleMinSize: RspAttribute := 4
  const FemaleMaxSize: RspAttribute := 5
  const FemaleMinTail: RspAttribute := 6
  const FemaleMaxTail: RspAttribute := 7
  const BustMinX: RspAttribute := 8
  const BustMinY: RspAttribute := 9
  const BustMinZ: RspAttribute := 10
  const BustMaxX: RspAttribute := 11
  const BustMaxY: RspAttribute := 12
  const BustMaxZ: RspAttribute := 13
  const NumAttributes: RspAttribute := 14

  predicate IsAttribute(a: RspAttribute) {
    a < NumAttributes
  }

  /** The four EST tables; any other byte is rejected by the store's switch. */
  datatype EstType = Hair | Face | Body | Head | UnnamedEstType(code: bv8)

  predicate IsKnownEstType(t: EstType) {
    !t.UnnamedEstType?
  }
}
