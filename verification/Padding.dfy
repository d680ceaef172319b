/** Size buckets for plaintext (core/src/crypto/padding.rs). */
module Padding {
  import opened Bytes
  import opened Wrappers

  const BUCKETS: seq<nat> := [64, 256, 1024, 4096, 16384, 65536]

  function FirstBucket(buckets: seq<nat>, needed: nat): (bucket: Option<nat>)
    ensures bucket.Some? ==> bucket.value >= needed
  {
    if buckets == [] then None
    else if buckets[0] >= needed then Some(buckets[0])
    else FirstBucket(buckets[1..], needed)
  }

  function Zeros(n: nat): (s: seq<byte>)
    ensures |s| == n
  {
    seq(n, _ => 0)
  }

  function PadToBucket(plaintext: seq<byte>): Result<seq<byte>> {
    var needed := |plaintext| + 4;
    match FirstBucket(BUCKETS, needed)
    case None => Failure(Malformed)
    case Some(bucket) =>
      Success(ToLe(|plaintext|, 4) + plaintext + Zeros(bucket - needed))
  }

  function Unpad(padded: seq<byte>): Result<seq<byte>> {
    if |padded| < 4 then Failure(Malformed)
    else
      var len := FromLe(padded[..4]);
      if 4 + len > |padded| then Failure(Malformed) else Success(padded[4..4 + len])
  }

  /** The bucket chosen is the least one that holds the content and its length prefix. */
  lemma {:induction false} FirstBucketIsLeast(buckets: seq<nat>, needed: nat)
    requires forall i, j | 0 <= i < j < |buckets| :: buckets[i] < buckets[j]
    ensures FirstBucket(buckets, needed).None? <==> forall b | b in buckets :: b < needed
    ensures FirstBucket(buckets, needed).Some? ==>
              var b := FirstBucket(buckets, needed).value;
              b in buckets && b >= needed && forall c | c in buckets && c >= needed :: b <= c
  {
    if buckets == [] {
    } else {
      FirstBucketIsLeast(buckets[1..], needed);
      assert forall b | b in buckets :: b == buckets[0] || b in buckets[1..];
      assert buckets[0] in buckets && forall b | b in buckets[1..] :: b in buckets;
    }
  }

  lemma Joined(s: seq<byte>, i: nat, j: nat)
    requires i <= j <= |s|
    ensures s[..i] + s[i..j] <= s
  {
  }

  lemma LengthRead(prefix: seq<byte>)
    requires |prefix| == 4
    ensures FromLe(prefix) < U32_LIMIT && ToLe(FromLe(prefix), 4) == prefix
  {
    U32RoundTrip(0, prefix);
  }

  lemma UnpadFinds(padded: seq<byte>, content: seq<byte>)
    requires Unpad(padded) == Success(content)
    ensures |content| < U32_LIMIT && ToLe(|content|, 4) + content <= padded
  {
    LengthRead(padded[..4]);
    Joined(padded, 4, 4 + |content|);
  }

  lemma Parted(a: seq<byte>, b: seq<byte>, s: seq<byte>)
    requires a + b <= s
    ensures s[..|a|] == a && s[|a|..|a| + |b|] == b
  {
  }

  lemma UnpadTakes(padded: seq<byte>, prefix: seq<byte>, content: seq<byte>)
    requires |content| < U32_LIMIT && prefix == ToLe(|content|, 4) && prefix + content <= padded
    ensures Unpad(padded) == Success(content)
  {
    U32RoundTrip(|content|, []);
    Parted(prefix, content, padded);
  }

  /** Unpadding accepts exactly what starts with a length and that much content, whatever comes after. */
  lemma UnpadReads(padded: seq<byte>, content: seq<byte>)
    ensures Unpad(padded) == Success(content)
       <==> |content| < U32_LIMIT && ToLe(|content|, 4) + content <= padded
  {
    if Unpad(padded) == Success(content) {
      UnpadFinds(padded, content);
    } else if |content| < U32_LIMIT && ToLe(|content|, 4) + content <= padded {
      UnpadTakes(padded, ToLe(|content|, 4), content);
    }
  }

  /** Padding succeeds exactly on content of at most 65532 bytes, always undoes, and leaves only the
      bucket visible: two contents that need the same bucket get the same padded length. */
  lemma PadUnpad(plaintext: seq<byte>)
    ensures PadToBucket(plaintext).Success? <==> |plaintext| <= 65532
    ensures PadToBucket(plaintext).Success? ==>
              var padded := PadToBucket(plaintext).value;
              && Unpad(padded) == Success(plaintext)
              && |padded| in [64, 256, 1024, 4096, 16384, 65536]
              && (forall b | b in [64, 256, 1024, 4096, 16384, 65536] && b >= |plaintext| + 4 :: |padded| <= b)
              && forall k | |plaintext| + 4 <= k < |padded| :: padded[k] == 0
  {
    FirstBucketIsLeast(BUCKETS, |plaintext| + 4);
    assert BUCKETS[5] == 65536 && BUCKETS[5] in BUCKETS;
    if PadToBucket(plaintext).Success? {
      var padded := PadToBucket(plaintext).value;
      U32RoundTrip(|plaintext|, []);
      assert padded[..4] == ToLe(|plaintext|, 4);
      assert padded[4..4 + |plaintext|] == plaintext;
    }
  }

  ghost predicate IsBucket(size: nat) {
    size in [64, 256, 1024, 4096, 16384, 65536]
  }

  /** A padded content and its size. */
  ghost predicate Holds(padded: seq<byte>, content: seq<byte>) {
    ToLe(|content|, 4) + content <= padded && IsBucket(|padded|)
  }

  lemma PadHolds(plaintext: seq<byte>)
    ensures var r := PadToBucket(plaintext);
            (r.Success? <==> |plaintext| <= 65532) && (r.Failure? ==> r == Failure(Malformed))
            && (r.Success? ==> Holds(r.value, plaintext))
  {
    PadUnpad(plaintext);
    if PadToBucket(plaintext).Success? { UnpadReads(PadToBucket(plaintext).value, plaintext); }
  }
}
