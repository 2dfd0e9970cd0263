/** Signed 64-bit integers. */
module Int64 {
  const MIN_INT64 := -0x8000_0000_0000_0000
  const MAX_INT64 := 0x7fff_ffff_ffff_ffff

  predicate IsInt64(x: int) { MIN_INT64 <= x <= MAX_INT64 }

  /** What is left of a sum or a product in 64 bits. */
  function Wrap(x: int): (r: int)
    ensures IsInt64(r) && (IsInt64(x) ==> r == x)
  {
    (x - MIN_INT64) % 0x1_0000_0000_0000_0000 + MIN_INT64
  }

  const WORD := 0x1_0000_0000_0000_0000

  lemma WrapShift(x: int, q: int)
    ensures Wrap(x + WORD * q) == Wrap(x)
  {
    var a, b := (x - MIN_INT64) / WORD, (x - MIN_INT64) % WORD;
    assert x + WORD * q - MIN_INT64 == WORD * (a + q) + b;
  }

  /** Wrapping early or late makes no difference. */
  lemma WrapTwice(x: int, r: int)
    ensures Wrap(Wrap(x) + r) == Wrap(x + r)
  {
    var q := (x - MIN_INT64) / WORD;
    assert x == Wrap(x) + WORD * q;
    WrapShift(Wrap(x) + r, q);
  }
}
