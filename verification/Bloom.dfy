/** Compact summaries of held identities (core/src/bloom.rs). */
module Bloom {
  import opened Bytes
  import opened Wrappers
  import opened Envelopes

  const MIN_BITS: nat := 64
  const MIN_HASHES: nat := 1
  const MAX_HASHES: nat := 32

  /** The two words the source reads from the BLAKE3 digest of an identity. */
  type Hash = EnvelopeId -> (u64, u64)

  datatype BloomFilter = BloomFilter(bits: seq<byte>, numBits: nat, numHashes: nat) {
    /** Parameters a filter can be built or parsed with. */
    predicate Valid() {
      && MIN_BITS <= numBits < U32_LIMIT && MIN_HASHES <= numHashes <= MAX_HASHES
      && |bits| == BytesFor(numBits)
    }
  }

  function BytesFor(numBits: nat): nat {
    (numBits + 7) / 8
  }

  /** The bit positions of an identity, in wrapping 64-bit arithmetic. */
  function Index(hash: Hash, numBits: nat, id: EnvelopeId, i: nat): nat
    requires numBits > 0
  {
    var (h1, h2) := hash(id);
    ((h1 + (i * h2) % U64_LIMIT) % U64_LIMIT) % numBits
  }

  /** `b & (1 << k) != 0` */
  predicate HasBit(b: nat, k: nat) {
    if k == 0 then b % 2 == 1 else HasBit(b / 2, k - 1)
  }

  /** `b | (1 << k)` */
  function WithBit(b: nat, k: nat): nat {
    if k == 0 then b - b % 2 + 1 else 2 * WithBit(b / 2, k - 1) + b % 2
  }

  lemma Halve(b: nat)
    ensures b == 2 * (b / 2) + b % 2 && b % 2 <= 1
  {
  }

  /** One step of the recursion, on numbers alone. */
  lemma DoubleBelow(h: nat, r: nat, half: nat, h': nat)
    requires r <= 1 && 2 * h + r < 2 * half
    ensures h < half && 2 * h + 1 < 2 * half && (h' < half ==> 2 * h' + r < 2 * half)
  {
  }

  lemma {:induction false} WithBitBound(b: nat, k: nat, n: nat)
    requires b < Pow2(n) && k < n
    ensures WithBit(b, k) < Pow2(n)
    decreases k
  {
    Halve(b);
    var half, h, r := Pow2(n - 1), b / 2, b % 2;
    assert Pow2(n) == 2 * half;
    if k == 0 {
      DoubleBelow(h, r, half, 0);
    } else {
      DoubleBelow(h, r, half, WithBit(h, k - 1));
      WithBitBound(h, k - 1, n - 1);
    }
  }

  function ByteWith(b: byte, k: nat): byte
    requires k < 8
  {
    assert Pow2(8) == 256 by { assert Pow2(5) == 32; }
    WithBitBound(b, k, 8);
    WithBit(b, k)
  }

  /** The bits `from` up to `upto` of a set, as a number. */
  ghost function Pack(members: set<nat>, from: nat, upto: nat): nat
    decreases upto - from
  {
    if from >= upto then 0 else (if from in members then 1 else 0) + 2 * Pack(members, from + 1, upto)
  }

  lemma {:induction false} PackBound(members: set<nat>, from: nat, upto: nat)
    requires from <= upto
    ensures Pack(members, from, upto) < Pow2(upto - from)
    decreases upto - from
  {
    if from >= upto {
    } else {
      PackBound(members, from + 1, upto);
    }
  }

  lemma {:induction false} PackHas(members: set<nat>, from: nat, upto: nat, i: nat)
    requires from <= i < upto
    ensures HasBit(Pack(members, from, upto), i - from) <==> i in members
    decreases upto - from
  {
    if from >= i {
    } else {
      PackHas(members, from + 1, upto, i);
      assert Pack(members, from, upto) / 2 == Pack(members, from + 1, upto);
    }
  }

  lemma {:induction false} PackOutside(members: set<nat>, i: nat, from: nat, upto: nat)
    requires i < from || upto <= i
    ensures Pack(members + {i}, from, upto) == Pack(members, from, upto)
    decreases upto - from
  {
    if from >= upto {
    } else {
      PackOutside(members, i, from + 1, upto);
    }
  }

  lemma {:induction false} PackInside(members: set<nat>, i: nat, from: nat, upto: nat)
    requires from <= i < upto
    ensures Pack(members + {i}, from, upto) == WithBit(Pack(members, from, upto), i - from)
    decreases upto - from
  {
    if from == i {
      PackOutside(members, i, from + 1, upto);
    } else {
      PackInside(members, i, from + 1, upto);
      assert Pack(members, from, upto) / 2 == Pack(members, from + 1, upto);
    }
  }

  ghost function PackedByte(members: set<nat>, k: nat): byte {
    assert Pow2(8) == 256 by { assert Pow2(5) == 32; }
    PackBound(members, 8 * k, 8 * k + 8);
    Pack(members, 8 * k, 8 * k + 8)
  }

  /** The byte array in which exactly the members' bits are set. */
  ghost function PackedBits(numBits: nat, members: set<nat>): (bits: seq<byte>)
    ensures |bits| == BytesFor(numBits)
  {
    seq(BytesFor(numBits), k requires 0 <= k => PackedByte(members, k))
  }

  predicate HasIndex(bits: seq<byte>, i: nat)
    requires i / 8 < |bits|
  {
    HasBit(bits[i / 8], i % 8)
  }

  lemma PackedHas(numBits: nat, members: set<nat>, i: nat)
    requires i / 8 < BytesFor(numBits)
    ensures HasIndex(PackedBits(numBits, members), i) <==> i in members
  {
    PackHas(members, 8 * (i / 8), 8 * (i / 8) + 8, i);
  }

  lemma PackedByteInsert(members: set<nat>, i: nat, k: nat)
    ensures PackedByte(members + {i}, k)
         == if 8 * k <= i < 8 * k + 8 then WithBit(PackedByte(members, k), i - 8 * k) else PackedByte(members, k)
  {
    if 8 * k <= i < 8 * k + 8 {
      PackInside(members, i, 8 * k, 8 * k + 8);
    } else {
      PackOutside(members, i, 8 * k, 8 * k + 8);
    }
  }

  /** Setting one bit in place adds one member and changes no other. */
  lemma PackedInsert(numBits: nat, members: set<nat>, i: nat)
    requires i / 8 < BytesFor(numBits)
    ensures var bits := PackedBits(numBits, members);
            bits[i / 8 := ByteWith(bits[i / 8], i % 8)] == PackedBits(numBits, members + {i})
  {
    forall k: nat | k < BytesFor(numBits)
      ensures PackedByte(members + {i}, k)
           == if k == i / 8 then WithBit(PackedByte(members, k), i % 8) else PackedByte(members, k)
    {
      PackedByteInsert(members, i, k);
    }
  }

  ghost function IndicesOf(hash: Hash, numBits: nat, numHashes: nat, id: EnvelopeId): set<nat>
    requires numBits > 0
  {
    set i | 0 <= i < numHashes :: Index(hash, numBits, id, i)
  }

  ghost function AllIndices(hash: Hash, numBits: nat, numHashes: nat, ids: set<EnvelopeId>): set<nat>
    requires numBits > 0
  {
    set id, i | id in ids && 0 <= i < numHashes :: Index(hash, numBits, id, i)
  }

  /** The filter built by inserting every identity of a set, in whatever order. */
  ghost function FilterOf(hash: Hash, numBits: nat, numHashes: nat, ids: set<EnvelopeId>): BloomFilter
    requires numBits > 0
  {
    BloomFilter(PackedBits(numBits, AllIndices(hash, numBits, numHashes, ids)), numBits, numHashes)
  }

  /** Whether a filter reads an identity as probably present. */
  predicate Contains(f: BloomFilter, hash: Hash, id: EnvelopeId)
    requires f.Valid()
  {
    forall i | 0 <= i < f.numHashes :: HasIndex(f.bits, Index(hash, f.numBits, id, i))
  }

  /** Exactly the identities all of whose bits were set by members read as present: every member does, and
      any other that does is a false positive. */
  lemma FilterMembership(hash: Hash, numBits: nat, numHashes: nat, ids: set<EnvelopeId>, id: EnvelopeId)
    requires MIN_BITS <= numBits < U32_LIMIT && MIN_HASHES <= numHashes <= MAX_HASHES
    ensures FilterOf(hash, numBits, numHashes, ids).Valid()
    ensures Contains(FilterOf(hash, numBits, numHashes, ids), hash, id)
       <==> IndicesOf(hash, numBits, numHashes, id) <= AllIndices(hash, numBits, numHashes, ids)
    ensures id in ids ==> Contains(FilterOf(hash, numBits, numHashes, ids), hash, id)
  {
    var f := FilterOf(hash, numBits, numHashes, ids);
    forall i | 0 <= i < numHashes
      ensures HasIndex(f.bits, Index(hash, numBits, id, i))
         <==> Index(hash, numBits, id, i) in AllIndices(hash, numBits, numHashes, ids)
    {
      PackedHas(numBits, AllIndices(hash, numBits, numHashes, ids), Index(hash, numBits, id, i));
    }
    forall k | k in IndicesOf(hash, numBits, numHashes, id)
      ensures exists i :: 0 <= i < numHashes && k == Index(hash, numBits, id, i)
    {
    }
  }

  // ----- what the bits mean -----

  /** Bit `k` of a number is its binary digit. */
  lemma {:induction false} HasBitIsDigit(b: nat, k: nat)
    ensures HasBit(b, k) <==> b / Pow2(k) % 2 == 1
  {
    if k == 0 {
    } else {
      HasBitIsDigit(b / 2, k - 1);
      DivideTwice(b, 2, Pow2(k - 1));
    }
  }

  /** A progression of 64-bit numbers, folded onto the bits. */
  function Position(start: u64, stride: u64, i: nat, numBits: nat): nat
    requires numBits > 0
  {
    (start + i * stride) % 0x1_0000_0000_0000_0000 % numBits
  }

  /** What the wrapping arithmetic of the source comes to. */
  lemma IndexIsProgression(hash: Hash, numBits: nat, id: EnvelopeId, i: nat)
    requires numBits > 0
    ensures Index(hash, numBits, id, i) == Position(hash(id).0, hash(id).1, i, numBits)
  {
    WrapOnce(hash(id).0, i * hash(id).1);
  }

  lemma WrapOnce(a: nat, b: nat)
    ensures (a + b % U64_LIMIT) % U64_LIMIT == (a + b) % U64_LIMIT
  {
    assert b == U64_LIMIT * (b / U64_LIMIT) + b % U64_LIMIT;
  }

  /** The bit at a position: the byte is the position over eight, the bit its remainder, least significant first. */
  ghost predicate BitAt(bits: seq<byte>, position: nat) {
    position / 8 < |bits| && bits[position / 8] / Pow2(position % 8) % 2 == 1
  }

  lemma HasIndexIsBitAt(bits: seq<byte>, i: nat)
    requires i / 8 < |bits|
    ensures HasIndex(bits, i) <==> BitAt(bits, i)
  {
    HasBitIsDigit(bits[i / 8], i % 8);
  }

  /** An identity reads as present exactly if the bit at each of its positions is set. */
  lemma ContainsMeans(f: BloomFilter, hash: Hash, id: EnvelopeId)
    requires f.Valid()
    ensures Contains(f, hash, id)
       <==> forall i: nat | i < f.numHashes :: BitAt(f.bits, Position(hash(id).0, hash(id).1, i, f.numBits))
  {
    forall i: nat | i < f.numHashes
      ensures BitAt(f.bits, Position(hash(id).0, hash(id).1, i, f.numBits))
         <==> HasIndex(f.bits, Index(hash, f.numBits, id, i))
    {
      IndexIsProgression(hash, f.numBits, id, i);
      HasIndexIsBitAt(f.bits, Index(hash, f.numBits, id, i));
    }
  }

  // ----- wire format -----

  function ToBytes(f: BloomFilter): seq<byte> {
    ToLe(f.numBits, 4) + [f.numHashes % 256] + f.bits
  }

  function FromBytes(bytes: seq<byte>): Result<BloomFilter> {
    if |bytes| < 5 then Failure(Malformed)
    else
      var numBits, numHashes, bits := FromLe(bytes[..4]), bytes[4], bytes[5..];
      if numBits < MIN_BITS || numHashes < MIN_HASHES || numHashes > MAX_HASHES then Failure(Malformed)
      else if |bits| != BytesFor(numBits) then Failure(Malformed)
      else Success(BloomFilter(bits, numBits, numHashes))
  }

  /** The wire layout: four bytes for the number of bits, one for the number of hashes, then the bits. */
  lemma Layout(f: BloomFilter)
    requires f.Valid()
    ensures 64 <= f.numBits && 1 <= f.numHashes <= 32
    ensures var bytes := ToBytes(f);
            && |bytes| == 5 + (f.numBits + 7) / 8 && bytes[4] == f.numHashes && bytes[5..] == f.bits
            && forall k: nat | k < 4 :: bytes[k] == f.numBits / Pow256(k) % 256
  {
    forall k: nat | k < 4
      ensures ToBytes(f)[k] == f.numBits / Pow256(k) % 256
    {
      LeDigit(f.numBits, 4, k);
    }
  }

  /** What the parser accepts, in numbers. */
  lemma ParsesIff(bytes: seq<byte>)
    ensures FromBytes(bytes).Success?
       <==> |bytes| >= 5 && FromLe(bytes[..4]) >= 64 && 1 <= bytes[4] <= 32
            && |bytes| == 5 + (FromLe(bytes[..4]) + 7) / 8
  {
  }

  lemma ParsePrint(f: BloomFilter)
    requires f.Valid()
    ensures FromBytes(ToBytes(f)) == Success(f)
  {
    U32RoundTrip(f.numBits, []);
    var bytes := ToBytes(f);
    assert bytes[..4] == ToLe(f.numBits, 4) && bytes[5..] == f.bits;
  }

  lemma PrintParse(bytes: seq<byte>)
    requires FromBytes(bytes).Success?
    ensures FromBytes(bytes).value.Valid() && ToBytes(FromBytes(bytes).value) == bytes
  {
    U32RoundTrip(0, bytes[..4]);
    assert bytes == bytes[..4] + [bytes[4]] + bytes[5..];
  }

  lemma PrefixRejected(bytes: seq<byte>, k: nat)
    requires FromBytes(bytes).Success? && k < |bytes|
    ensures FromBytes(bytes[..k]).Failure?
  {
    if k >= 5 { assert bytes[..k][..4] == bytes[..4]; }
  }

  // ----- the filter object -----

  class Filter {
    const numBits: nat
    const numHashes: nat
    const bits: array<byte>
    ghost var members: set<nat>

    ghost predicate Valid()
      reads this, bits
    {
      && MIN_BITS <= numBits < U32_LIMIT && MIN_HASHES <= numHashes <= MAX_HASHES
      && bits[..] == PackedBits(numBits, members)
    }

    function View(): BloomFilter
      reads this, bits
    {
      BloomFilter(bits[..], numBits, numHashes)
    }

    constructor (numBits: nat, numHashes: nat)
      requires MIN_BITS <= numBits < U32_LIMIT && MIN_HASHES <= numHashes <= MAX_HASHES
      ensures Valid() && members == {} && this.numBits == numBits && this.numHashes == numHashes && fresh(bits)
    {
      this.numBits, this.numHashes := numBits, numHashes;
      bits := new byte[BytesFor(numBits)](_ => 0);
      members := {};
      new;
      forall k: nat | k < bits.Length
        ensures bits[..][k] == PackedBits(numBits, {})[k]
      {
        EmptyPack(8 * k, 8 * k + 8);
      }
      assert bits[..] == PackedBits(numBits, {});
    }

    method Insert(hash: Hash, id: EnvelopeId)
      requires Valid()
      modifies this, bits
      ensures Valid() && members == old(members) + IndicesOf(hash, numBits, numHashes, id)
    {
      var i := 0;
      while i < numHashes
        invariant 0 <= i <= numHashes && Valid()
        invariant members == old(members) + IndicesOf(hash, numBits, i, id)
      {
        var index := Index(hash, numBits, id, i);
        PackedInsert(numBits, members, index);
        bits[index / 8] := ByteWith(bits[index / 8], index % 8);
        members := members + {index};
        i := i + 1;
      }
    }

    method Has(hash: Hash, id: EnvelopeId) returns (present: bool)
      requires Valid()
      ensures View().Valid() && (present <==> Contains(View(), hash, id))
    {
      var i := 0;
      while i < numHashes
        invariant 0 <= i <= numHashes
        invariant forall j | 0 <= j < i :: HasIndex(bits[..], Index(hash, numBits, id, j))
      {
        var index := Index(hash, numBits, id, i);
        if !HasBit(bits[index / 8], index % 8) {
          assert !HasIndex(bits[..], index);
          return false;
        }
        i := i + 1;
      }
      present := true;
    }
  }

  lemma {:induction false} EmptyPack(from: nat, upto: nat)
    ensures Pack({}, from, upto) == 0
    decreases upto - from
  {
    if from >= upto {
    } else {
      EmptyPack(from + 1, upto);
    }
  }
}
