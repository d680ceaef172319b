/** Fixed-width little-endian integers, as Rust's `to_le_bytes`/`from_le_bytes` lay them out. */
module Bytes {
  type byte = x: int | 0 <= x < 256
  type u32 = x: int | 0 <= x < 0x1_0000_0000
  type u64 = x: int | 0 <= x < 0x1_0000_0000_0000_0000

  const U32_LIMIT: nat := 0x1_0000_0000
  const U64_LIMIT: nat := 0x1_0000_0000_0000_0000

  /** The low `width` bytes of `x`, least significant first: writing a wider number truncates it,
      exactly as an `as u32` cast before `to_le_bytes` does. */
  function ToLe(x: nat, width: nat): (s: seq<byte>)
    ensures |s| == width
  {
    if width == 0 then [] else [x % 256] + ToLe(x / 256, width - 1)
  }

  function FromLe(s: seq<byte>): nat {
    if s == [] then 0 else s[0] + 256 * FromLe(s[1..])
  }

  function Pow256(width: nat): (p: nat)
    ensures p >= 1
  {
    if width == 0 then 1 else 256 * Pow256(width - 1)
  }

  function Pow2(n: nat): (p: nat)
    ensures p >= 1
  {
    if n == 0 then 1 else 2 * Pow2(n - 1)
  }

  lemma {:induction false} FromToLe(x: nat, width: nat)
    requires x < Pow256(width)
    ensures FromLe(ToLe(x, width)) == x
  {
    if width == 0 {
    } else {
      FromToLe(x / 256, width - 1);
      assert ToLe(x, width)[1..] == ToLe(x / 256, width - 1);
    }
  }

  lemma LowByte(low: byte, high: nat)
    ensures (low + 256 * high) % 256 == low && (low + 256 * high) / 256 == high
  {
  }

  lemma {:induction false} ToFromLe(s: seq<byte>)
    ensures ToLe(FromLe(s), |s|) == s
    ensures FromLe(s) < Pow256(|s|)
  {
    if s == [] {
    } else {
      ToFromLe(s[1..]);
      LowByte(s[0], FromLe(s[1..]));
      assert s == [s[0]] + s[1..];
    }
  }

  lemma DivideTwice(x: nat, a: nat, b: nat)
    requires a >= 1 && b >= 1
    ensures a * b >= 1 && (x / a) / b == x / (a * b)
  {
    var q := x / a;
    DivideTwiceBy(x, a, b, q, x % a, q / b, q % b);
  }

  lemma DivideTwiceBy(x: nat, a: nat, b: nat, q: nat, r: nat, p: nat, s: nat)
    requires x == a * q + r && r < a && q == b * p + s && s < b
    ensures a * b >= 1 && x / (a * b) == p
  {
    Regroup(a, b, p, s, r);
    QuotientIs(x, a * b, p, a * s + r);
  }

  lemma Regroup(a: nat, b: nat, p: nat, s: nat, r: nat)
    requires s < b && r < a
    ensures a * (b * p + s) + r == (a * b) * p + (a * s + r) && a * s + r < a * b
  {
    assert a * (b * p + s) == a * (b * p) + a * s && a * (b * p) == (a * b) * p;
    assert a * s + a == a * (s + 1);
    Scale(a, s + 1, b);
  }

  lemma Scale(a: nat, b: nat, c: nat)
    requires b <= c
    ensures a * b <= a * c
  {
  }

  lemma QuotientIs(x: nat, d: nat, q: nat, r: nat)
    requires d >= 1 && x == d * q + r && r < d
    ensures x / d == q
  {
    var p := x / d;
    if p < q { Scale(d, p + 1, q); }
    if q < p { Scale(d, q + 1, p); }
  }

  /** Byte `k` is the digit of 256 to the `k`. */
  lemma {:induction false} LeDigit(x: nat, width: nat, k: nat)
    requires k < width
    ensures ToLe(x, width)[k] == x / Pow256(k) % 256
  {
    if k == 0 {
    } else {
      LeDigit(x / 256, width - 1, k - 1);
      DivideTwice(x, 256, Pow256(k - 1));
    }
  }

  lemma Pow256Values()
    ensures Pow256(4) == U32_LIMIT && Pow256(8) == U64_LIMIT
  {
    assert Pow256(3) == 0x100_0000;
    assert Pow256(4) == U32_LIMIT;
    assert Pow256(7) == 256 * 256 * 256 * Pow256(4);
  }

  /** What a reader of a fixed-width field needs: a value that fits comes back, and any bytes are
      the encoding of the value read from them. */
  lemma U32RoundTrip(x: nat, s: seq<byte>)
    ensures x < U32_LIMIT ==> FromLe(ToLe(x, 4)) == x
    ensures |s| == 4 ==> FromLe(s) < U32_LIMIT && ToLe(FromLe(s), 4) == s
  {
    Pow256Values();
    if x < U32_LIMIT { FromToLe(x, 4); }
    ToFromLe(s);
  }

  lemma U64RoundTrip(x: nat, s: seq<byte>)
    ensures x < U64_LIMIT ==> FromLe(ToLe(x, 8)) == x
    ensures |s| == 8 ==> FromLe(s) < U64_LIMIT && ToLe(FromLe(s), 8) == s
  {
    Pow256Values();
    if x < U64_LIMIT { FromToLe(x, 8); }
    ToFromLe(s);
  }
}
