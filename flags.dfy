/**
 * The emulator's flags register (class `flags` of emulator_main.cpp): a
 * 64-bit word of which bit 0 is `equal`, bit 1 is `above` and bit 2 is
 * `halt`.
 */
module FlagsRegister {
  const EQUAL: bv6 := 0
  const ABOVE: bv6 := 1
  const HALT: bv6 := 2

  // A bit index is a `bv6`: the source passes an `int`, always 0, 1 or 2.

  /** `1ULL << bit`. */
  function Mask(bit: bv6): bv64
  {
    (1 as bv64) << bit
  }

  /** `_get`: whether the bit is set. */
  predicate GetBit(v: bv64, bit: bv6)
  {
    v & Mask(bit) != 0
  }

  /** `_set`: the word with one bit set to `w`; every other bit is kept. */
  function SetBit(v: bv64, bit: bv6, w: bool): bv64
  {
    if w then v | Mask(bit) else v & !Mask(bit)
  }

  /** `_get` after `_set` of the same bit returns what was set, and the other
      63 bits are those of the old word. */
  lemma SetThenGet(v: bv64, bit: bv6, w: bool)
    ensures GetBit(SetBit(v, bit, w), bit) == w
    ensures SetBit(v, bit, w) & !Mask(bit) == v & !Mask(bit)
  {
  }

  /** Setting one of the three flags does not change what `_get` returns for
      another. */
  lemma SetKeepsOthers(v: bv64, bit: bv6, w: bool, other: bv6)
    requires other != bit && bit <= HALT && other <= HALT
    ensures GetBit(SetBit(v, bit, w), other) == GetBit(v, other)
  {
  }

  /** Writing the value a bit already has changes nothing. */
  lemma SetSame(v: bv64, bit: bv6)
    requires bit <= HALT
    ensures SetBit(v, bit, GetBit(v, bit)) == v
  {
  }

  class Flags {
    var value: bv64

    constructor()
      ensures value == 0
    {
      value := 0;
    }

    /** `_set`. */
    method Set(bit: bv6, w: bool)
        modifies this
      ensures value == SetBit(old(value), bit, w)
    {
      value := SetBit(value, bit, w);
    }

    /** `_get`. */
    predicate Get(bit: bv6)
        reads this
    {
      GetBit(value, bit)
    }

    method SetEqual(w: bool)
      modifies this
      ensures value == SetBit(old(value), EQUAL, w)
    {
      Set(EQUAL, w);
    }

    predicate Equal()
      reads this
    {
      Get(EQUAL)
    }

    method SetAbove(w: bool)
      modifies this
      ensures value == SetBit(old(value), ABOVE, w)
    {
      Set(ABOVE, w);
    }

    predicate Above()
      reads this
    {
      Get(ABOVE)
    }

    method SetHalt(w: bool)
      modifies this
      ensures value == SetBit(old(value), HALT, w)
    {
      Set(HALT, w);
    }

    predicate Halt()
      reads this
    {
      Get(HALT)
    }
  }
}
