/** 16-bit audio samples. */
module Pcm {
  type Sample = x: int | -0x8000 <= x < 0x8000

  /** Conversion to int16_t: the value modulo 2^16. */
  function Wrap16(x: int): (r: Sample)
    ensures -0x8000 <= x < 0x8000 ==> r == x
    ensures (x - r) % 0x1_0000 == 0
  {
    (x + 0x8000) % 0x1_0000 - 0x8000
  }

  /** Wrapping early or late makes no difference to a sum. */
  lemma WrapSum(a: int, b: int)
    ensures Wrap16(Wrap16(a) + b) == Wrap16(a + b)
  {
  }

  function Silence(n: nat): seq<Sample> {
    seq(n, i => 0)
  }

  datatype Option<+T> = None | Some(value: T)
}
