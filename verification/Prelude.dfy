/** Small things every other module may need: an optional value, and products of integers. */
module Prelude {

  datatype Option<+T> = None | Some(value: T)

  lemma NextProduct(m: nat, a: int)
    ensures m * (a + 1) == m * a + m
  {
  }

  /** A larger factor makes the product larger by at least the other one. */
  lemma {:induction false} MulStep(m: nat, a: int, b: int)
    requires a < b
    ensures m * a + m <= m * b
    decreases b - a
  {
    NextProduct(m, b - 1);
    if a + 1 < b { MulStep(m, a, b - 1); }
  }
}
