/** Machine integers: 64-bit addition and truncation written out over unbounded ones. */
module Integers {

  const TWO_63 := 0x8000_0000_0000_0000
  const TWO_64 := 0x1_0000_0000_0000_0000

  /** More elements than any list in memory holds. */
  const MAX_LENGTH := 0x4000_0000_0000_0000

  type U64 = x: int | 0 <= x < TWO_64
  type I64 = x: int | -TWO_63 <= x < TWO_63

  function Min(a: int, b: int): int {
    if a < b then a else b
  }

  /** The value a 64-bit signed integer keeps of `x`. */
  function Int64(x: int): (r: int)
    ensures -TWO_63 <= r < TWO_63
    ensures -TWO_63 <= x < TWO_63 <==> r == x
    ensures (x - r) % TWO_64 == 0
  {
    (x + TWO_63) % TWO_64 - TWO_63
  }

  function Add(a: U64, b: U64): U64 {
    (a + b) % TWO_64
  }

  lemma AddWraps(a: U64, b: U64)
    ensures Add(a, b) == if a + b < TWO_64 then a + b else a + b - TWO_64
  {
  }

  lemma AddLaws(a: U64, b: U64, c: U64)
    ensures Add(Add(a, b), c) == Add(a, Add(b, c))
    ensures Add(a, b) == Add(b, a) && Add(0, a) == a
  {
    AddWraps(a, b);
    AddWraps(b, c);
    AddWraps(Add(a, b), c);
    AddWraps(a, Add(b, c));
  }
}
