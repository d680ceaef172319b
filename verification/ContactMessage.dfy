/** The frames two nodes exchange on contact (core/src/relay.rs). */
module ContactMessages {
  import opened Bytes
  import opened Wrappers
  import Envelopes
  import Bloom

  const WIRE_VERSION: byte := 1

  datatype ContactMessage = Summary(filter: Bloom.BloomFilter) | Data(envelope: Envelopes.Envelope, puzzleNonce: u64) {
    /** Parameters a filter can be built or parsed with. */
    predicate Valid() {
      Summary? ==> filter.Valid()
    }
  }

  function Tag(m: ContactMessage): byte {
    if m.Summary? then 0 else 1
  }

  function Payload(m: ContactMessage): seq<byte> {
    match m
    case Summary(filter) => Bloom.ToBytes(filter)
    case Data(envelope, nonce) => ToLe(nonce, 8) + Envelopes.ToBytes(envelope)
  }

  function ToBytes(m: ContactMessage): seq<byte> {
    [WIRE_VERSION] + [Tag(m)] + ToLe(|Payload(m)|, 4) + Payload(m)
  }

  function ParsePayload(tag: byte, payload: seq<byte>): Result<ContactMessage> {
    match tag
    case 0 =>
      var filter :- Bloom.FromBytes(payload);
      Success(Summary(filter))
    case 1 =>
      if |payload| < 8 then Failure(Malformed)
      else
        U64RoundTrip(0, payload[..8]);
        var envelope :- Envelopes.FromBytes(payload[8..]);
        Success(Data(envelope, FromLe(payload[..8])))
    case _ => Failure(Malformed)
  }

  function FromBytes(bytes: seq<byte>): Result<ContactMessage> {
    if |bytes| < 6 || bytes[0] != WIRE_VERSION then Failure(Malformed)
    else if |bytes[6..]| != FromLe(bytes[2..6]) then Failure(Malformed)
    else ParsePayload(bytes[1], bytes[6..])
  }

  lemma PayloadRoundTrip(m: ContactMessage)
    requires m.Valid() && |Payload(m)| < U32_LIMIT
    ensures ParsePayload(Tag(m), Payload(m)) == Success(m)
  {
    match m
    case Summary(filter) => Bloom.ParsePrint(filter);
    case Data(envelope, nonce) =>
      assert Payload(m)[..8] == ToLe(nonce, 8) && Payload(m)[8..] == Envelopes.ToBytes(envelope);
      U64RoundTrip(nonce, []);
      Envelopes.ParsePrint(envelope);
  }

  /** Parsing undoes printing exactly when the payload fits its length field; what does not fit is rejected. */
  lemma ParsePrint(m: ContactMessage)
    requires m.Valid()
    ensures FromBytes(ToBytes(m)) == if |Payload(m)| < U32_LIMIT then Success(m) else Failure(Malformed)
  {
    var bytes := ToBytes(m);
    assert bytes[2..6] == ToLe(|Payload(m)|, 4) && bytes[6..] == Payload(m);
    U32RoundTrip(|Payload(m)|, ToLe(|Payload(m)|, 4));
    if |Payload(m)| < U32_LIMIT { PayloadRoundTrip(m); }
  }

  /** The frame layout: version, kind, length, payload; a data frame's payload is its nonce and the envelope. */
  lemma Layout(m: ContactMessage)
    ensures var bytes := ToBytes(m);
            && |bytes| >= 6 && bytes[0] == 1 && bytes[1] == (if m.Summary? then 0 else 1)
            && (forall k: nat | k < 4 :: bytes[2 + k] == (|bytes| - 6) / Pow256(k) % 256)
            && (m.Summary? ==> bytes[6..] == Bloom.ToBytes(m.filter))
            && (m.Data? ==>
                  && |bytes| >= 14 && bytes[14..] == Envelopes.ToBytes(m.envelope)
                  && forall k: nat | k < 8 :: bytes[6 + k] == m.puzzleNonce / Pow256(k) % 256)
  {
    var bytes := ToBytes(m);
    assert bytes[6..] == Payload(m);
    forall k: nat | k < 4
      ensures bytes[2 + k] == (|bytes| - 6) / Pow256(k) % 256
    {
      LeDigit(|Payload(m)|, 4, k);
    }
    if m.Data? {
      assert bytes[6..][8..] == bytes[14..];
      forall k: nat | k < 8
        ensures bytes[6 + k] == m.puzzleNonce / Pow256(k) % 256
      {
        LeDigit(m.puzzleNonce, 8, k);
      }
    }
  }

  lemma PayloadInverts(tag: byte, payload: seq<byte>)
    requires ParsePayload(tag, payload).Success?
    ensures var m := ParsePayload(tag, payload).value;
            m.Valid() && Tag(m) == tag && Payload(m) == payload
  {
    if tag == 0 {
      Bloom.PrintParse(payload);
    } else {
      U64RoundTrip(0, payload[..8]);
      Envelopes.PrintParse(payload[8..]);
      assert payload == payload[..8] + payload[8..];
    }
  }

  /** Printing undoes parsing on every byte string the parser accepts: a frame has one spelling. */
  lemma PrintParse(bytes: seq<byte>)
    requires FromBytes(bytes).Success?
    ensures var m := FromBytes(bytes).value;
            ToBytes(m) == bytes && m.Valid() && |Payload(m)| < U32_LIMIT
  {
    PayloadInverts(bytes[1], bytes[6..]);
    U32RoundTrip(0, bytes[2..6]);
    assert bytes[..6] == [bytes[0]] + [bytes[1]] + bytes[2..6];
    assert bytes == bytes[..6] + bytes[6..];
  }

  /** A truncated frame never parses. */
  lemma PrefixRejected(bytes: seq<byte>, k: nat)
    requires FromBytes(bytes).Success? && k < |bytes|
    ensures FromBytes(bytes[..k]).Failure?
  {
    if k >= 6 { assert bytes[..k][2..6] == bytes[2..6]; }
  }
}
