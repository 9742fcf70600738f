/** Objects on a map space, as far as the space's caches depend on them. */
module Things {
  const MAP_LAYERS := 10

  type Layer = l: int | 0 <= l < MAP_LAYERS

  /** The movement bit masks, one boolean for each of the five bits of MOVE_ALL. */
  datatype MoveType = MoveType(walk: bool, flyLow: bool, flyHigh: bool, swim: bool, boat: bool) {
    function Or(m: MoveType): MoveType {
      MoveType(walk || m.walk, flyLow || m.flyLow, flyHigh || m.flyHigh, swim || m.swim, boat || m.boat)
    }

    function Without(m: MoveType): MoveType {
      MoveType(walk && !m.walk, flyLow && !m.flyLow, flyHigh && !m.flyHigh, swim && !m.swim, boat && !m.boat)
    }

    predicate Flies() {
      flyLow || flyHigh
    }
  }

  const NO_MOVE := MoveType(false, false, false, false, false)

  /** Piles never reach the sign bit. */
  type Count = n: int | 0 <= n < 0x8000_0000

  /** A kind stands for everything else that object_can_merge compares; an object too fast to merge
      has a kind of its own. */
  datatype Thing = Thing(
    id: nat, kind: nat, nrof: Count,
    player: bool, hiddenDm: bool, lamp: bool, applied: bool, spellEffect: bool,
    alive: bool, noMagic: bool, damned: bool, blocksPrayer: bool, blocksView: bool,
    moveType: MoveType, moveBlock: MoveType, moveAllow: MoveType,
    moveOn: MoveType, moveOff: MoveType, moveSlow: MoveType,
    glow: nat, invisible: bool, blankFace: bool, visibility: nat, mapLayer: Layer,
    monster: bool, canRoll: bool, floor: bool, overlayFloor: bool, noPick: bool)
}
