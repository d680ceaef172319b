/** The client puzzle: a nonce whose digest starts with enough zero bits (core/src/puzzle.rs). */
module Puzzle {
  import opened Bytes
  import opened Envelopes

  /** The digest of an identity followed by a nonce. */
  type Digest = (EnvelopeId, u64) -> seq<byte>

  function BitLength(b: nat): nat {
    if b == 0 then 0 else 1 + BitLength(b / 2)
  }

  lemma {:induction false} BitLengthBound(b: nat, k: nat)
    ensures b < Pow2(k) <==> BitLength(b) <= k
  {
    if b == 0 || k == 0 {
    } else {
      BitLengthBound(b / 2, k - 1);
    }
  }

  function LeadingZeros(b: byte): nat {
    assert Pow2(8) == 256 by { assert Pow2(5) == 32; }
    BitLengthBound(b, 8);
    8 - BitLength(b)
  }

  function LeadingZeroBits(bytes: seq<byte>): nat {
    if bytes == [] then 0
    else if bytes[0] == 0 then 8 + LeadingZeroBits(bytes[1..])
    else LeadingZeros(bytes[0])
  }

  function BigEndian(bytes: seq<byte>): nat {
    if bytes == [] then 0 else bytes[0] * Pow256(|bytes| - 1) + BigEndian(bytes[1..])
  }

  /** One byte decides: below a power of two of the higher part means the first byte is. */
  lemma HeadDecides(head: nat, rest: nat, unit: nat, limit: nat)
    requires rest < unit
    ensures head * unit + rest < limit * unit <==> head < limit
  {
    if head < limit {
      assert (head + 1) * unit <= limit * unit;
    } else {
      assert head * unit >= limit * unit;
    }
  }

  lemma {:induction false} BigEndianBound(bytes: seq<byte>)
    ensures BigEndian(bytes) < Pow256(|bytes|)
  {
    if bytes == [] {
    } else {
      BigEndianBound(bytes[1..]);
      HeadDecides(bytes[0], BigEndian(bytes[1..]), Pow256(|bytes| - 1), 256);
    }
  }

  lemma {:induction false} Pow256IsPow2(n: nat)
    ensures Pow256(n) == Pow2(8 * n)
  {
    if n == 0 {
    } else {
      Pow256IsPow2(n - 1);
      Pow2Add(8, 8 * (n - 1));
      assert Pow2(8) == 256 by { assert Pow2(5) == 32; }
    }
  }

  lemma {:induction false} Pow2Add(m: nat, n: nat)
    ensures Pow2(m + n) == Pow2(m) * Pow2(n)
  {
    if m == 0 {
    } else {
      Pow2Add(m - 1, n);
      assert 2 * (Pow2(m - 1) * Pow2(n)) == (2 * Pow2(m - 1)) * Pow2(n);
    }
  }

  lemma FirstByteBound(bytes: seq<byte>, d: nat)
    requires bytes != [] && d <= 8
    ensures bytes[0] < Pow2(8 - d) <==> BigEndian(bytes) < Pow2(8 * |bytes| - d)
  {
    var n := |bytes| - 1;
    BigEndianBound(bytes[1..]);
    Pow256IsPow2(n);
    Pow2Add(8 - d, 8 * n);
    HeadDecides(bytes[0], BigEndian(bytes[1..]), Pow256(n), Pow2(8 - d));
  }

  /** What difficulty means: `d` leading zero bits are exactly a digest that, read as one big-endian number,
      falls below the top `d` bits. */
  lemma {:induction false} ZeroBitsBound(bytes: seq<byte>, d: nat)
    requires d <= 8 * |bytes|
    ensures LeadingZeroBits(bytes) >= d <==> BigEndian(bytes) < Pow2(8 * |bytes| - d)
  {
    if bytes == [] {
    } else if d <= 8 {
      FirstByteBound(bytes, d);
      BitLengthBound(bytes[0], 8 - d);
    } else if bytes[0] == 0 {
      ZeroBitsBound(bytes[1..], d - 8);
      assert 0 * Pow256(|bytes| - 1) == 0;
    } else {
      FirstByteBound(bytes, 8);
      Pow2Grows(8 * |bytes| - d, 8 * |bytes| - 8);
    }
  }

  lemma {:induction false} Pow2Grows(m: nat, n: nat)
    requires m <= n
    ensures Pow2(m) <= Pow2(n)
  {
    if m >= n {
    } else {
      Pow2Grows(m, n - 1);
    }
  }

  method CountLeadingZeroBits(bytes: seq<byte>) returns (count: nat)
    ensures count == LeadingZeroBits(bytes)
  {
    count := 0;
    for i := 0 to |bytes|
      invariant LeadingZeroBits(bytes) == count + LeadingZeroBits(bytes[i..])
    {
      assert bytes[i..][1..] == bytes[i + 1..];
      if bytes[i] == 0 {
        count := count + 8;
        continue;
      }
      count := count + LeadingZeros(bytes[i]);
      return;
    }
  }

  predicate Verifies(digest: Digest, id: EnvelopeId, nonce: u64, difficulty: nat) {
    LeadingZeroBits(digest(id, nonce)) >= difficulty
  }

  lemma {:induction false} LeadingZerosBound(bytes: seq<byte>)
    ensures LeadingZeroBits(bytes) <= 8 * |bytes|
  {
    if bytes == [] {
    } else {
      LeadingZerosBound(bytes[1..]);
    }
  }

  /** A nonce satisfies a difficulty exactly if the digest of the identity with it has that many bits at all and, as
      one big-endian number, leaves them all zero. */
  lemma VerifiesBound(digest: Digest, id: EnvelopeId, nonce: u64, difficulty: nat)
    ensures Verifies(digest, id, nonce, difficulty)
       <==> difficulty <= 8 * |digest(id, nonce)|
            && BigEndian(digest(id, nonce)) < Pow2(8 * |digest(id, nonce)| - difficulty)
  {
    LeadingZerosBound(digest(id, nonce));
    if difficulty <= 8 * |digest(id, nonce)| { ZeroBitsBound(digest(id, nonce), difficulty); }
  }

  ghost predicate Solvable(digest: Digest, id: EnvelopeId, difficulty: nat) {
    exists nonce: u64 :: Verifies(digest, id, nonce, difficulty)
  }

  ghost predicate IsSolution(digest: Digest, id: EnvelopeId, difficulty: nat, nonce: u64) {
    && Verifies(digest, id, nonce, difficulty)
    && forall other: u64 | other < nonce :: !Verifies(digest, id, other, difficulty)
  }

  lemma {:induction false} LeastExists(digest: Digest, id: EnvelopeId, difficulty: nat, nonce: u64)
    requires Verifies(digest, id, nonce, difficulty)
    ensures exists least: u64 :: IsSolution(digest, id, difficulty, least)
    decreases nonce
  {
    if other: u64 :| other < nonce && Verifies(digest, id, other, difficulty) {
      LeastExists(digest, id, difficulty, other);
    } else {
      assert IsSolution(digest, id, difficulty, nonce);
    }
  }

  /** The nonce the search stops at; when there is none the source's search never returns. */
  ghost function Solution(digest: Digest, id: EnvelopeId, difficulty: nat): (nonce: u64)
    ensures Solvable(digest, id, difficulty) ==> IsSolution(digest, id, difficulty, nonce)
  {
    if Solvable(digest, id, difficulty) then
      var some: u64 :| Verifies(digest, id, some, difficulty);
      LeastExists(digest, id, difficulty, some);
      var least: u64 :| IsSolution(digest, id, difficulty, least);
      least
    else 0
  }

  method Solve(digest: Digest, id: EnvelopeId, difficulty: nat) returns (nonce: u64)
    requires Solvable(digest, id, difficulty)
    ensures nonce == Solution(digest, id, difficulty)
    ensures Verifies(digest, id, nonce, difficulty)
  {
    nonce := 0;
    ghost var solution := Solution(digest, id, difficulty);
    while !Verifies(digest, id, nonce, difficulty)
      invariant nonce <= solution
      decreases solution - nonce
    {
      nonce := nonce + 1;
    }
  }
}
