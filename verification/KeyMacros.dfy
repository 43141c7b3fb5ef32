// The bit-level macros of include/ipm.h that pack an event into a 64-bit key and take it
// apart again, and the per-call mask word they consult.
module KeyMacros {
  import opened Bits

  const KEY_MASK_BYTE: nat := 0x0000_0000_7FFF_FFFF
  const KEY_MASK_RANK: nat := 0x0000_FFFF_0000_0000
  const KEY_MASK_NORANK: nat := 0x0000_0000_8000_0000
  const KEY_MASK_CALL: nat := 0x00FF_0000_0000_0000
  const KEY_MASK_REGION: nat := 0xFF00_0000_0000_0000
  const CALL_MASK_STATE_OPT: nat := 0xFFFF_0000_0000_0000
  const CALL_MASK_BPREC: nat := 0x0000_FFFF_FFFF_FFFF

  // The region, call and peer rank part of IPM_MPI_KEY, already shifted into place.  Shifting
  // drops what leaves the word, so a region of -1 loses all but its low byte.
  function PeerBits(region: int, call: nat, rank: int): nat {
    var regionCall := Or(Word(Word(region) * 0x100), call);
    if rank < 0 then Or(Word(Or(Word(regionCall * 0x1_0000), -rank) * 0x1_0000_0000), KEY_MASK_NORANK)
    else Word(Or(Word(regionCall * 0x1_0000), rank) * 0x1_0000_0000)
  }

  // IPM_MPI_KEY with the mask word of the call being logged.
  function MpiKey(mask: nat, region: int, call: nat, rank: int, size: nat): nat {
    Or(PeerBits(region, call, rank), And(size, And(mask, CALL_MASK_BPREC)))
  }

  // KEY_BYTE, KEY_RANK, KEY_CALL and KEY_REGION.
  function ByteBits(key: nat): nat {
    And(key, KEY_MASK_BYTE)
  }

  function RankBits(key: nat): int {
    if And(key, KEY_MASK_NORANK) != 0 then -(And(key, KEY_MASK_RANK) / 0x1_0000_0000)
    else And(key, KEY_MASK_RANK) / 0x1_0000_0000
  }

  function CallBits(key: nat): nat {
    And(key, KEY_MASK_CALL) / 0x1_0000_0000_0000
  }

  function RegionBits(key: nat): nat {
    And(key, KEY_MASK_REGION) / 0x100_0000_0000_0000
  }

  // CALL_BUF_PRECISION_DOWN on a mask word: the size bits lose their lowest one.
  function PrecisionDown(mask: nat): nat {
    Or(And(mask, CALL_MASK_STATE_OPT), And(And(mask, CALL_MASK_BPREC) * 2, CALL_MASK_BPREC))
  }

  // CALL_BUF_PRECISION_UP on a mask word.
  function PrecisionUp(mask: nat): nat {
    Or(And(mask, CALL_MASK_STATE_OPT), And(And(mask, CALL_MASK_BPREC) / 2, CALL_MASK_BPREC))
  }
}
