/** Go's fixed-width integers: uint64 and int64 addition wrap around. */
module Machine {

  const TWO64: int := 0x1_0000_0000_0000_0000
  const TWO63: int := 0x8000_0000_0000_0000

  type U64 = x: int | 0 <= x < 0x1_0000_0000_0000_0000
  type I64 = x: int | -0x8000_0000_0000_0000 <= x < 0x8000_0000_0000_0000

  function Add64(a: U64, b: U64): U64 {
    if a + b < TWO64 then a + b else a + b - TWO64
  }

  function AddI64(a: I64, b: I64): I64 {
    if a + b < -TWO63 then a + b + TWO64 else if a + b >= TWO63 then a + b - TWO64 else a + b
  }

  /** The wrapping sum of a list. */
  function Sum64(s: seq<U64>): U64 {
    if s == [] then 0 else Add64(Sum64(s[..|s| - 1]), s[|s| - 1])
  }

  /** The mathematical sum of a list. */
  function SumNat(s: seq<U64>): nat {
    if s == [] then 0 else SumNat(s[..|s| - 1]) + s[|s| - 1]
  }

  function AddCounts(a: seq<U64>, b: seq<U64>): (r: seq<U64>)
    requires |a| == |b|
  {
    seq(|a|, i requires 0 <= i < |a| => Add64(a[i], b[i]))
  }

  lemma {:induction false} SumOfAddCounts(a: seq<U64>, b: seq<U64>)
    requires |a| == |b|
    ensures Sum64(AddCounts(a, b)) == Add64(Sum64(a), Sum64(b))
  {
    if a != [] {
      var n := |a| - 1;
      SumOfAddCounts(a[..n], b[..n]);
      assert Add64(Add64(Sum64(a[..n]), Sum64(b[..n])), Add64(a[n], b[n]))
          == Add64(Add64(Sum64(a[..n]), a[n]), Add64(Sum64(b[..n]), b[n]));
      assert AddCounts(a, b)[..n] == AddCounts(a[..n], b[..n]);
    }
  }
}
