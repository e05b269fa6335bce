/** Option and Result values shared by every module of the project. */
module Wrappers {

  datatype Option<+T> = None | Some(value: T)

  datatype Result<+T, +E> = Ok(value: T) | Err(error: E)
}

/** Machine words of the modelled programs, as ranges of `int`. */
module Words {

  type byte = x: int | 0 <= x < 0x100
  type u32 = x: int | 0 <= x < 0x1_0000_0000
  type u64 = x: int | 0 <= x < 0x1_0000_0000_0000_0000
  type i32 = x: int | -0x8000_0000 <= x < 0x8000_0000
  type i64 = x: int | -0x8000_0000_0000_0000 <= x < 0x8000_0000_0000_0000

  type Bytes = seq<byte>

  function CeilDiv(n: nat, d: nat): (q: nat)
    requires d > 0
    ensures n <= d * q < n + d
  {
    (n + d - 1) / d
  }

  lemma {:induction false} MulMonotone(d: nat, a: nat, b: nat)
    requires a <= b
    ensures d * a <= d * b
  {
    if a < b {
      MulMonotone(d, a, b - 1);
      assert d * b == d * (b - 1) + d;
    }
  }

  lemma MulStrict(d: nat, a: nat, b: nat)
    ensures a < b ==> d * a + d <= d * b
  {
    if a < b {
      assert d * (a + 1) == d * a + d;
      MulMonotone(d, a + 1, b);
    }
  }

  lemma CeilDivUnique(n: nat, d: nat, q: nat)
    requires d > 0 && n <= d * q < n + d
    ensures q == CeilDiv(n, d)
  {
    hide CeilDiv;
    MulStrict(d, q, CeilDiv(n, d));
    MulStrict(d, CeilDiv(n, d), q);
  }
}
