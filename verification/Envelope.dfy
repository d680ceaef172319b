/** Sealed envelopes, their wire format and their content-derived identity (core/src/envelope.rs). */
module Envelopes {
  import opened Bytes
  import opened Wrappers

  const WIRE_VERSION: byte := 1

  /** BLAKE3 as a free term: equal digests mean equal preimages. */
  datatype EnvelopeId = Digest(preimage: seq<byte>)

  type Target = s: seq<byte> | |s| == 32 witness seq(32, _ => 0)

  datatype Addressing = Broadcast | Channel(id: Target) | Group(id: Target) | Direct(id: Target) {
    function Tag(): byte {
      match this
      case Broadcast => 0
      case Channel(_) => 1
      case Group(_) => 2
      case Direct(_) => 3
    }

    function TargetBytes(): seq<byte> {
      if Broadcast? then [] else id
    }
  }

  /** Lower ordinal, more urgent. */
  datatype Priority = Sos | Bulletin | Normal | Low {
    function Ordinal(): byte {
      match this
      case Sos => 0
      case Bulletin => 1
      case Normal => 2
      case Low => 3
    }
  }

  function PriorityFromTag(tag: byte): Result<Priority> {
    match tag
    case 0 => Success(Sos)
    case 1 => Success(Bulletin)
    case 2 => Success(Normal)
    case 3 => Success(Low)
    case _ => Failure(Malformed)
  }

  /** The source keeps the identity in a field; both ways of making an envelope compute it from the others. */
  datatype Envelope = Envelope(
    addressing: Addressing, priority: Priority, ttlHops: byte, expiresAt: u64, sealed: seq<byte>)
  {
    function Id(): EnvelopeId {
      Digest(IdPreimage(this))
    }

    predicate IsExpired(now: nat) {
      now >= expiresAt
    }
  }

  function Front(e: Envelope): seq<byte> {
    [WIRE_VERSION] + [e.addressing.Tag()] + e.addressing.TargetBytes()
  }

  function Back(expiresAt: u64, sealed: seq<byte>): seq<byte> {
    ToLe(expiresAt, 8) + ToLe(|sealed|, 4) + sealed
  }

  /** What is hashed for the identity: everything but the hop count. */
  function IdPreimage(e: Envelope): seq<byte> {
    Front(e) + ([e.priority.Ordinal()] + Back(e.expiresAt, e.sealed))
  }

  function ToBytes(e: Envelope): seq<byte> {
    Front(e) + ([e.priority.Ordinal()] + [e.ttlHops] + Back(e.expiresAt, e.sealed))
  }

  function ParseFront(bytes: seq<byte>): Result<(Addressing, seq<byte>)> {
    if |bytes| < 2 || bytes[0] != WIRE_VERSION then Failure(Malformed)
    else
      var tag, cursor := bytes[1], bytes[2..];
      if tag == 0 then Success((Broadcast, cursor))
      else if tag > 3 || |cursor| < 32 then Failure(Malformed)
      else
        var target := cursor[..32];
        var addressing := if tag == 1 then Channel(target) else if tag == 2 then Group(target) else Direct(target);
        Success((addressing, cursor[32..]))
  }

  function ParseBack(cursor: seq<byte>): Result<(u64, seq<byte>)> {
    if |cursor| < 12 then Failure(Malformed)
    else
      U64RoundTrip(0, cursor[..8]);
      var len := FromLe(cursor[8..12]);
      if |cursor[12..]| != len then Failure(Malformed) else Success((FromLe(cursor[..8]), cursor[12..]))
  }

  function FromBytes(bytes: seq<byte>): Result<Envelope> {
    var (addressing, cursor) :- ParseFront(bytes);
    if |cursor| < 1 then Failure(Malformed)
    else
      var priority :- PriorityFromTag(cursor[0]);
      if |cursor| < 2 then Failure(Malformed)
      else
        var (expiresAt, sealed) :- ParseBack(cursor[2..]);
        Success(Envelope(addressing, priority, cursor[1], expiresAt, sealed))
  }

  lemma FrontRoundTrip(e: Envelope, rest: seq<byte>)
    ensures ParseFront(Front(e) + rest) == Success((e.addressing, rest))
  {
    var bytes := Front(e) + rest;
    assert bytes[2..] == e.addressing.TargetBytes() + rest;
  }

  lemma FrontInverts(bytes: seq<byte>, e: Envelope)
    requires ParseFront(bytes).Success? && ParseFront(bytes).value.0 == e.addressing
    ensures bytes == Front(e) + ParseFront(bytes).value.1
  {
  }

  lemma BackRoundTrip(expiresAt: u64, sealed: seq<byte>)
    ensures ParseBack(Back(expiresAt, sealed))
         == if |sealed| < U32_LIMIT then Success((expiresAt, sealed)) else Failure(Malformed)
  {
    var cursor := Back(expiresAt, sealed);
    assert cursor[..8] == ToLe(expiresAt, 8) && cursor[8..12] == ToLe(|sealed|, 4) && cursor[12..] == sealed;
    U64RoundTrip(expiresAt, []);
    U32RoundTrip(|sealed|, ToLe(|sealed|, 4));
  }

  lemma BackInverts(cursor: seq<byte>)
    requires ParseBack(cursor).Success?
    ensures var (expiresAt, sealed) := ParseBack(cursor).value;
            cursor == Back(expiresAt, sealed) && |sealed| < U32_LIMIT
  {
    U64RoundTrip(0, cursor[..8]);
    U32RoundTrip(0, cursor[8..12]);
    assert cursor == cursor[..8] + cursor[8..12] + cursor[12..];
  }

  /** Parsing undoes printing exactly when the payload length fits its field; a longer payload, whose length is
      truncated on the wire, is always rejected. */
  lemma ParsePrint(e: Envelope)
    ensures FromBytes(ToBytes(e)) == if |e.sealed| < U32_LIMIT then Success(e) else Failure(Malformed)
  {
    var cursor := [e.priority.Ordinal()] + [e.ttlHops] + Back(e.expiresAt, e.sealed);
    FrontRoundTrip(e, cursor);
    assert cursor[2..] == Back(e.expiresAt, e.sealed);
    BackRoundTrip(e.expiresAt, e.sealed);
  }

  /** Printing undoes parsing: every accepted byte string is the one encoding of what it parses to. */
  lemma PrintParse(bytes: seq<byte>)
    requires FromBytes(bytes).Success?
    ensures ToBytes(FromBytes(bytes).value) == bytes && |FromBytes(bytes).value.sealed| < U32_LIMIT
  {
    var e, cursor := FromBytes(bytes).value, ParseFront(bytes).value.1;
    FrontInverts(bytes, e);
    BackInverts(cursor[2..]);
    assert cursor == [cursor[0]] + [cursor[1]] + cursor[2..];
  }

  lemma FrontPrefix(bytes: seq<byte>, k: nat)
    requires ParseFront(bytes).Success? && k <= |bytes|
    ensures var (addressing, cursor) := ParseFront(bytes).value;
            var front := |bytes| - |cursor|;
            ParseFront(bytes[..k]) == if k < front then Failure(Malformed)
                                      else Success((addressing, cursor[..k - front]))
  {
    var front := |bytes| - |ParseFront(bytes).value.1|;
    if k >= front {
      assert bytes[..k][2..] == bytes[2..][..k - 2];
      if front == 34 {
        assert bytes[2..][..k - 2][..32] == bytes[2..][..32];
        assert bytes[2..][..k - 2][32..] == bytes[2..][32..][..k - 34];
      }
    } else if k >= 2 {
      assert |bytes[..k][2..]| == k - 2;
    }
  }

  lemma BackPrefix(cursor: seq<byte>, k: nat)
    requires ParseBack(cursor).Success? && k < |cursor|
    ensures ParseBack(cursor[..k]).Failure?
  {
    if k >= 12 { assert cursor[..k][8..12] == cursor[8..12]; }
  }

  /** The wire layout: version, kind of address, target, priority, hops, expiry, length and payload; and what is
      hashed for the identity is all of it but the hops. */
  lemma Layout(e: Envelope)
    ensures var bytes, p := ToBytes(e), if e.addressing.Broadcast? then 2 else 34;
            && |bytes| == p + 14 + |e.sealed|
            && bytes[0] == 1
            && bytes[1] == (match e.addressing
                            case Broadcast => 0
                            case Channel(_) => 1
                            case Group(_) => 2
                            case Direct(_) => 3)
            && (!e.addressing.Broadcast? ==> bytes[2..34] == e.addressing.id)
            && bytes[p] == (match e.priority case Sos => 0 case Bulletin => 1 case Normal => 2 case Low => 3)
            && bytes[p + 1] == e.ttlHops
            && (forall k: nat | k < 8 :: bytes[p + 2 + k] == e.expiresAt / Pow256(k) % 256)
            && (forall k: nat | k < 4 :: bytes[p + 10 + k] == |e.sealed| / Pow256(k) % 256)
            && bytes[p + 14..] == e.sealed
            && e.Id() == Digest(bytes[..p + 1] + bytes[p + 2..])
  {
    var bytes, p := ToBytes(e), if e.addressing.Broadcast? then 2 else 34;
    assert |Front(e)| == p;
    forall k: nat | k < 8
      ensures bytes[p + 2 + k] == e.expiresAt / Pow256(k) % 256
    {
      LeDigit(e.expiresAt, 8, k);
    }
    forall k: nat | k < 4
      ensures bytes[p + 10 + k] == |e.sealed| / Pow256(k) % 256
    {
      LeDigit(|e.sealed|, 4, k);
    }
    assert bytes[p + 2..] == Back(e.expiresAt, e.sealed);
    assert bytes[..p + 1] + bytes[p + 2..] == IdPreimage(e);
  }

  /** No accepted byte string is a strict prefix of another. */
  lemma PrefixRejected(bytes: seq<byte>, k: nat)
    requires FromBytes(bytes).Success? && k < |bytes|
    ensures FromBytes(bytes[..k]).Failure?
  {
    var cursor := ParseFront(bytes).value.1;
    var front := |bytes| - |cursor|;
    FrontPrefix(bytes, k);
    if k >= front + 2 {
      assert cursor[..k - front][2..] == cursor[2..][..k - front - 2];
      BackPrefix(cursor[2..], k - front - 2);
    }
  }

  /** The identity commits to the whole envelope except the hop count, whatever the payload length. */
  lemma IdIgnoresOnlyHops(e: Envelope, f: Envelope)
    ensures e.Id() == f.Id() <==> f == e.(ttlHops := f.ttlHops)
  {
    if IdPreimage(e) == IdPreimage(f) {
      var b := [e.priority.Ordinal()] + Back(e.expiresAt, e.sealed);
      var c := [f.priority.Ordinal()] + Back(f.expiresAt, f.sealed);
      FrontRoundTrip(e, b);
      FrontRoundTrip(f, c);
      assert b[0] == e.priority.Ordinal() && c[0] == f.priority.Ordinal();
      assert b[1..9] == ToLe(e.expiresAt, 8) && c[1..9] == ToLe(f.expiresAt, 8);
      assert b[13..] == e.sealed && c[13..] == f.sealed;
      U64RoundTrip(e.expiresAt, []);
      U64RoundTrip(f.expiresAt, []);
    } else {
      assert f == e.(ttlHops := f.ttlHops) ==> IdPreimage(f) == IdPreimage(e);
    }
  }
}
