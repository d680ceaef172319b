/** The list codec group snapshots are persisted with (core/src/groups.rs). */
module Groups {
  import opened Bytes
  import opened Wrappers

  type Bytestring = seq<byte>
  type Pair = (Bytestring, Bytestring)

  /** A length-prefixed string in front of other bytes. */
  function StringOnto(s: Bytestring, rest: seq<byte>): seq<byte> {
    ToLe(|s|, 4) + (s + rest)
  }

  function PairsOnto(pairs: seq<Pair>, rest: seq<byte>): seq<byte> {
    if pairs == [] then rest else StringOnto(pairs[0].0, StringOnto(pairs[0].1, PairsOnto(pairs[1..], rest)))
  }

  function Encoded(pairs: seq<Pair>): seq<byte> {
    ToLe(|pairs|, 4) + PairsOnto(pairs, [])
  }

  /** One length-prefixed string off the front of a cursor. */
  function ReadString(cursor: seq<byte>): Result<(Bytestring, seq<byte>)> {
    if |cursor| < 4 then Failure(Malformed)
    else
      var len, rest := FromLe(cursor[..4]), cursor[4..];
      if |rest| < len then Failure(Malformed) else Success((rest[..len], rest[len..]))
  }

  function ReadPair(cursor: seq<byte>): Result<(Pair, seq<byte>)> {
    var (key, rest) :- ReadString(cursor);
    var (value, rest') :- ReadString(rest);
    Success(((key, value), rest'))
  }

  /** `count` pairs off the front, and what is left of the cursor. */
  function ReadPairs(cursor: seq<byte>, count: nat): Result<(seq<Pair>, seq<byte>)> {
    if count == 0 then Success(([], cursor))
    else
      var (pair, rest) :- ReadPair(cursor);
      var (pairs, left) :- ReadPairs(rest, count - 1);
      Success(([pair] + pairs, left))
  }

  /** Bytes after the last pair are ignored. */
  function Decoded(buf: seq<byte>): Result<seq<Pair>> {
    if |buf| < 4 then Failure(Malformed)
    else
      var (pairs, _) :- ReadPairs(buf[4..], FromLe(buf[..4]));
      Success(pairs)
  }

  /** Sizes that fit their 32-bit fields. */
  ghost predicate Fit(pairs: seq<Pair>) {
    |pairs| < U32_LIMIT && forall p | p in pairs :: |p.0| < U32_LIMIT && |p.1| < U32_LIMIT
  }

  lemma Halves(a: seq<byte>, b: seq<byte>)
    ensures (a + b)[..|a|] == a && (a + b)[|a|..] == b
  {
  }

  lemma StringRoundTrip(s: Bytestring, rest: seq<byte>)
    requires |s| < U32_LIMIT
    ensures ReadString(StringOnto(s, rest)) == Success((s, rest))
  {
    Halves(ToLe(|s|, 4), s + rest);
    Halves(s, rest);
    U32RoundTrip(|s|, []);
  }

  lemma {:induction false} PairsRoundTrip(pairs: seq<Pair>, rest: seq<byte>)
    requires forall p | p in pairs :: |p.0| < U32_LIMIT && |p.1| < U32_LIMIT
    ensures ReadPairs(PairsOnto(pairs, rest), |pairs|) == Success((pairs, rest))
    decreases |pairs|
  {
    if pairs == [] {
    } else {
      var pair, tail := pairs[0], PairsOnto(pairs[1..], rest);
      assert pairs == [pair] + pairs[1..] && pair in pairs;
      PairsRoundTrip(pairs[1..], rest);
      StringRoundTrip(pair.1, tail);
      StringRoundTrip(pair.0, StringOnto(pair.1, tail));
    }
  }

  lemma {:induction false} OntoSplits(pairs: seq<Pair>, rest: seq<byte>)
    ensures PairsOnto(pairs, rest) == PairsOnto(pairs, []) + rest
    decreases |pairs|
  {
    if pairs == [] {
    } else {
      OntoSplits(pairs[1..], rest);
      var tail := PairsOnto(pairs[1..], []);
      StringSplits(pairs[0].1, tail, rest);
      StringSplits(pairs[0].0, StringOnto(pairs[0].1, tail), rest);
    }
  }

  lemma StringSplits(s: Bytestring, a: seq<byte>, b: seq<byte>)
    ensures StringOnto(s, a + b) == StringOnto(s, a) + b
  {
    assert s + (a + b) == (s + a) + b;
  }

  /** Every list comes back whole and in order, whatever bytes follow its encoding. */
  lemma RoundTrip(pairs: seq<Pair>, extra: seq<byte>)
    requires Fit(pairs)
    ensures Decoded(Encoded(pairs) + extra) == Success(pairs)
  {
    OntoSplits(pairs, extra);
    assert Encoded(pairs) + extra == ToLe(|pairs|, 4) + PairsOnto(pairs, extra);
    Halves(ToLe(|pairs|, 4), PairsOnto(pairs, extra));
    U32RoundTrip(|pairs|, []);
    PairsRoundTrip(pairs, extra);
  }

  /** One pair: the length of its key, its key, the length of its value and its value. */
  function PairBytes(pair: Pair): seq<byte> {
    ToLe(|pair.0|, 4) + pair.0 + ToLe(|pair.1|, 4) + pair.1
  }

  lemma PairFirst(pair: Pair, rest: seq<byte>)
    ensures StringOnto(pair.0, StringOnto(pair.1, rest)) == PairBytes(pair) + rest
  {
    Grouped(ToLe(|pair.0|, 4), pair.0, ToLe(|pair.1|, 4), pair.1 + rest);
  }

  /** Wherever a pair stands in a list, its bytes stand between those of the pairs before and after it. */
  lemma PairsAround(before: seq<Pair>, pair: Pair, after: seq<Pair>)
    ensures PairsOnto(before + ([pair] + after), [])
         == PairsOnto(before, []) + (PairBytes(pair) + PairsOnto(after, []))
  {
    assert ([pair] + after)[1..] == after;
    PairsJoin(before, [pair] + after, []);
    PairFirst(pair, PairsOnto(after, []));
    OntoSplits(before, PairBytes(pair) + PairsOnto(after, []));
  }

  /** The number of pairs comes first, in four bytes. */
  lemma CountFirst(pairs: seq<Pair>)
    ensures Encoded(pairs)[..4] == ToLe(|pairs|, 4) && Encoded(pairs)[4..] == PairsOnto(pairs, [])
  {
    Halves(ToLe(|pairs|, 4), PairsOnto(pairs, []));
  }

  lemma Grouped(a: seq<byte>, b: seq<byte>, c: seq<byte>, d: seq<byte>)
    ensures a + (b + (c + d)) == a + b + c + d
  {
  }

  lemma {:induction false} PairsJoin(first: seq<Pair>, second: seq<Pair>, rest: seq<byte>)
    ensures PairsOnto(first + second, rest) == PairsOnto(first, PairsOnto(second, rest))
    decreases |first|
  {
    if first == [] {
      assert first + second == second;
    } else {
      PairsJoin(first[1..], second, rest);
      assert (first + second)[1..] == first[1..] + second;
    }
  }

  lemma StringInverts(cursor: seq<byte>)
    requires ReadString(cursor).Success?
    ensures var (s, rest) := ReadString(cursor).value;
            cursor == StringOnto(s, rest) && |s| < U32_LIMIT && |cursor| == 4 + |s| + |rest|
  {
    U32RoundTrip(0, cursor[..4]);
    assert cursor == cursor[..4] + cursor[4..];
  }

  lemma PairInverts(cursor: seq<byte>)
    requires ReadPair(cursor).Success?
    ensures var (pair, rest) := ReadPair(cursor).value;
            && cursor == StringOnto(pair.0, StringOnto(pair.1, rest)) && |cursor| >= 8 + |rest|
            && |pair.0| < U32_LIMIT && |pair.1| < U32_LIMIT
  {
    StringInverts(cursor);
    StringInverts(ReadString(cursor).value.1);
  }

  lemma {:induction false} PairsInvert(cursor: seq<byte>, count: nat)
    requires ReadPairs(cursor, count).Success?
    ensures var (pairs, left) := ReadPairs(cursor, count).value;
            && |pairs| == count && cursor == PairsOnto(pairs, left) && |cursor| >= 8 * count + |left|
            && forall p | p in pairs :: |p.0| < U32_LIMIT && |p.1| < U32_LIMIT
    decreases count
  {
    if count == 0 {
    } else {
      var (pair, rest) := ReadPair(cursor).value;
      var (pairs, left) := ReadPairs(rest, count - 1).value;
      assert ReadPairs(cursor, count).value == ([pair] + pairs, left);
      assert ([pair] + pairs)[1..] == pairs;
      PairsInvert(rest, count - 1);
      PairInverts(cursor);
    }
  }

  /** Whatever count a buffer claims, and however it was made: what is decoded re-encodes to the bytes it was
      read from, and there are at most as many entries as eight bytes each leave room for. */
  lemma DecodedIsBounded(buf: seq<byte>)
    requires Decoded(buf).Success?
    ensures var pairs := Decoded(buf).value;
            Fit(pairs) && Encoded(pairs) <= buf && |pairs| <= (|buf| - 4) / 8
  {
    var count := FromLe(buf[..4]);
    var (pairs, left) := ReadPairs(buf[4..], count).value;
    PairsInvert(buf[4..], count);
    OntoSplits(pairs, left);
    U32RoundTrip(0, buf[..4]);
    assert buf == buf[..4] + buf[4..];
  }

  lemma {:induction false} PairsAppend(pairs: seq<Pair>, last: Pair, rest: seq<byte>)
    ensures PairsOnto(pairs + [last], rest) == PairsOnto(pairs, StringOnto(last.0, StringOnto(last.1, rest)))
    decreases |pairs|
  {
    if pairs == [] {
      assert (pairs + [last])[1..] == [];
    } else {
      PairsAppend(pairs[1..], last, rest);
      assert (pairs + [last])[1..] == pairs[1..] + [last];
    }
  }

  lemma PairWritten(front: seq<byte>, pairs: seq<Pair>, last: Pair)
    ensures front + PairsOnto(pairs + [last], [])
         == front + PairsOnto(pairs, []) + ToLe(|last.0|, 4) + last.0 + ToLe(|last.1|, 4) + last.1
  {
    var written := StringOnto(last.0, StringOnto(last.1, []));
    PairsAppend(pairs, last, []);
    OntoSplits(pairs, written);
    assert written == ToLe(|last.0|, 4) + last.0 + ToLe(|last.1|, 4) + last.1;
    FourMore(front + PairsOnto(pairs, []), ToLe(|last.0|, 4), last.0, ToLe(|last.1|, 4), last.1);
    assert front + (PairsOnto(pairs, []) + written) == front + PairsOnto(pairs, []) + written;
  }

  lemma FourMore(front: seq<byte>, a: seq<byte>, b: seq<byte>, c: seq<byte>, d: seq<byte>)
    ensures front + (a + b + c + d) == front + a + b + c + d
  {
  }

  method EncodeKvPairs(entries: seq<Pair>) returns (buf: seq<byte>)
    ensures buf == Encoded(entries)
  {
    buf := ToLe(|entries|, 4);
    ghost var front := buf;
    for i := 0 to |entries|
      invariant buf == front + PairsOnto(entries[..i], [])
    {
      var (k, v) := entries[i];
      PairWritten(front, entries[..i], (k, v));
      assert entries[..i + 1] == entries[..i] + [(k, v)];
      buf := buf + ToLe(|k|, 4);
      buf := buf + k;
      buf := buf + ToLe(|v|, 4);
      buf := buf + v;
    }
    assert entries[..|entries|] == entries;
  }

  function Prepended(entries: seq<Pair>, rest: Result<(seq<Pair>, seq<byte>)>): Result<seq<Pair>> {
    match rest
    case Success((pairs, _)) => Success(entries + pairs)
    case Failure(e) => Failure(e)
  }

  /** One turn of the decoding loop. */
  lemma ReadStep(cursor: seq<byte>, count: nat, entries: seq<Pair>)
    requires count > 0
    ensures ReadPair(cursor).Failure? ==>
            Prepended(entries, ReadPairs(cursor, count)) == Failure(ReadPair(cursor).error)
    ensures ReadPair(cursor).Success? ==>
              Prepended(entries, ReadPairs(cursor, count))
              == Prepended(entries + [ReadPair(cursor).value.0], ReadPairs(ReadPair(cursor).value.1, count - 1))
  {
    if ReadPair(cursor).Success? {
      var (pair, left) := ReadPair(cursor).value;
      var rest := ReadPairs(left, count - 1);
      if rest.Success? { assert entries + ([pair] + rest.value.0) == entries + [pair] + rest.value.0; }
    }
  }

  /** The loop's body: a key, then a value, each checked against what is left. */
  method DecodeEntry(cursor: seq<byte>) returns (entry: Result<(Pair, seq<byte>)>)
    ensures entry == ReadPair(cursor)
  {
    var key := ReadString(cursor);
    if key.Failure? { return Failure(key.error); }
    var value := ReadString(key.value.1);
    if value.Failure? { return Failure(value.error); }
    entry := Success(((key.value.0, value.value.0), value.value.1));
  }

  method DecodeEntries(start: seq<byte>, count: nat) returns (result: Result<seq<Pair>>)
    ensures result == Prepended([], ReadPairs(start, count))
  {
    var cursor, entries := start, [];
    for i := 0 to count
      invariant Prepended([], ReadPairs(start, count)) == Prepended(entries, ReadPairs(cursor, count - i))
    {
      ReadStep(cursor, count - i, entries);
      var entry := DecodeEntry(cursor);
      if entry.Failure? { return Failure(entry.error); }
      cursor, entries := entry.value.1, entries + [entry.value.0];
    }
    assert entries + [] == entries;
    result := Success(entries);
  }

  method DecodeKvPairs(buf: seq<byte>) returns (result: Result<seq<Pair>>)
    ensures result == Decoded(buf)
  {
    if |buf| < 4 { return Failure(Malformed); }
    result := DecodeEntries(buf[4..], FromLe(buf[..4]));
    ghost var all := ReadPairs(buf[4..], FromLe(buf[..4]));
    if all.Success? { assert [] + all.value.0 == all.value.0; }
  }
}
