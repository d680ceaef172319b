/** X3DH prekeys: the one-time pool, its persistence and the classical key agreement
    (core/src/crypto/prekey.rs, core/src/identity.rs). */
module Prekeys {
  import opened Bytes
  import opened Collections
  import opened Wrappers
  import opened SymbolicCrypto

  const KEY_BYTES: nat := 32

  /** Signatures, curve points and key encapsulation as functions; `Lawful` says what is relied on. */
  datatype Suite = Suite(
    verifyingKey: nat -> seq<byte>,
    sign: (nat, seq<byte>) -> seq<byte>,
    verify: (seq<byte>, seq<byte>, seq<byte>) -> bool,
    isPoint: seq<byte> -> bool,
    encapsulationKey: seq<byte> -> seq<byte>,
    isEncapsulationKey: seq<byte> -> bool,
    encapsulate: (seq<byte>, nat) -> (seq<byte>, seq<byte>),
    decapsulate: (seq<byte>, seq<byte>) -> seq<byte>)

  /** Both the ML-KEM-1024 ciphertext and its encapsulation key are this long. */
  const CIPHERTEXT_BYTES: nat := 1568

  ghost predicate Lawful(suite: Suite) {
    && (forall s :: |suite.verifyingKey(s)| == 32 && suite.isPoint(suite.verifyingKey(s)))
    && (forall s, m :: suite.verify(suite.verifyingKey(s), m, suite.sign(s, m)))
    && (forall seed ::
        |suite.encapsulationKey(seed)| == CIPHERTEXT_BYTES && suite.isEncapsulationKey(suite.encapsulationKey(seed)))
    && (forall seed, r ::
          var (ct, secret) := suite.encapsulate(suite.encapsulationKey(seed), r);
          |ct| == CIPHERTEXT_BYTES && suite.decapsulate(seed, ct) == secret)
  }

  datatype Identity = Identity(signing: nat, agreement: Secret) {
    function PublicPart(suite: Suite): PublicIdentity {
      PublicIdentity(suite.verifyingKey(signing), PublicOf(agreement))
    }
  }

  datatype PublicIdentity = PublicIdentity(verifying: seq<byte>, agreement: Public)

  datatype SignedPrekey = SignedPrekey(secret: Secret, signature: seq<byte>)

  datatype OneTimePrekey = OneTimePrekey(secret: Secret)

  function KeyToBytes(scalar: nat): seq<byte> {
    ToLe(scalar, KEY_BYTES)
  }

  /** A scalar that fits its 32 bytes. */
  ghost predicate Fits(scalar: nat) {
    scalar < Pow256(KEY_BYTES)
  }

  function GenerateSigned(suite: Suite, identity: Identity, drawn: Secret): SignedPrekey {
    SignedPrekey(drawn, suite.sign(identity.signing, KeyToBytes(PublicOf(drawn).scalar)))
  }

  // ----- the key agreement -----

  datatype PrekeyBundle = PrekeyBundle(
    identity: PublicIdentity, signedPrekey: Public, signature: seq<byte>, oneTime: Option<Public>)

  predicate VerifySigned(suite: Suite, bundle: PrekeyBundle) {
    suite.verify(bundle.identity.verifying, KeyToBytes(bundle.signedPrekey.scalar), bundle.signature)
  }

  datatype Initiation = Initiation(shared: SharedSecret, ephemeral: Public, used: Option<Public>)

  function Initiate(suite: Suite, sender: Identity, bundle: PrekeyBundle, ephemeral: Secret): Result<Initiation> {
    if !VerifySigned(suite, bundle) then Failure(BadSignature)
    else
      var dh1 := Dh(sender.agreement, bundle.signedPrekey);
      var dh2 := Dh(ephemeral, bundle.identity.agreement);
      var dh3 := Dh(ephemeral, bundle.signedPrekey);
      var dh4 := if bundle.oneTime.Some? then Some(Dh(ephemeral, bundle.oneTime.value)) else None;
      Success(Initiation(X3dhSecret(dh1, dh2, dh3, dh4), PublicOf(ephemeral), bundle.oneTime))
  }

  /** A bundle is taken up exactly if its signature on the 32 bytes of the signed prekey verifies under its own
      verifying key; otherwise nothing is derived. */
  lemma InitiatesIff(suite: Suite, sender: Identity, bundle: PrekeyBundle, ephemeral: Secret)
    ensures Initiate(suite, sender, bundle, ephemeral).Success?
       <==> suite.verify(bundle.identity.verifying, ToLe(bundle.signedPrekey.scalar, 32), bundle.signature)
    ensures Initiate(suite, sender, bundle, ephemeral).Failure? ==>
              Initiate(suite, sender, bundle, ephemeral) == Failure(BadSignature)
  {
  }

  function Respond(recipient: Identity, signed: SignedPrekey, oneTime: Option<OneTimePrekey>, sender: PublicIdentity,
                   ephemeral: Public): SharedSecret {
    var dh1 := Dh(signed.secret, sender.agreement);
    var dh2 := Dh(recipient.agreement, ephemeral);
    var dh3 := Dh(signed.secret, ephemeral);
    var dh4 := if oneTime.Some? then Some(Dh(oneTime.value.secret, ephemeral)) else None;
    X3dhSecret(dh1, dh2, dh3, dh4)
  }

  // ----- the published bundle -----

  function BundleToBytes(b: PrekeyBundle): seq<byte> {
    BundleFront(b) + OneTimeToBytes(b.oneTime)
  }

  function BundleFront(b: PrekeyBundle): seq<byte> {
    b.identity.verifying + KeyToBytes(b.identity.agreement.scalar) + KeyToBytes(b.signedPrekey.scalar) + b.signature
  }

  function OneTimeToBytes(oneTime: Option<Public>): seq<byte> {
    if oneTime.Some? then [1] + KeyToBytes(oneTime.value.scalar) else [0]
  }

  function OneTimeFromBytes(cursor: seq<byte>): Result<Option<Public>>
    requires cursor != []
  {
    match cursor[0]
    case 0 => Success(None)
    case 1 => if |cursor| < 33 then Failure(Malformed) else Success(Some(Public(FromLe(cursor[1..33]))))
    case _ => Failure(Malformed)
  }

  function BundleFromBytes(suite: Suite, bytes: seq<byte>): Result<PrekeyBundle> {
    if |bytes| < 161 || !suite.isPoint(bytes[..32]) then Failure(Malformed)
    else
      var oneTime :- OneTimeFromBytes(bytes[160..]);
      Success(PrekeyBundle(PublicIdentity(bytes[..32], Public(FromLe(bytes[32..64]))), Public(FromLe(bytes[64..96])),
                           bytes[96..160], oneTime))
  }

  ghost predicate Printable(suite: Suite, b: PrekeyBundle) {
    && |b.identity.verifying| == 32 && suite.isPoint(b.identity.verifying) && Fits(b.identity.agreement.scalar)
    && Fits(b.signedPrekey.scalar) && |b.signature| == 64 && (b.oneTime.Some? ==> Fits(b.oneTime.value.scalar))
  }

  lemma OneTimeRoundTrip(oneTime: Option<Public>, extra: seq<byte>)
    requires oneTime.Some? ==> Fits(oneTime.value.scalar)
    ensures OneTimeFromBytes(OneTimeToBytes(oneTime) + extra) == Success(oneTime)
  {
    if oneTime.Some? {
      var cursor := OneTimeToBytes(oneTime) + extra;
      assert cursor[1..33] == KeyToBytes(oneTime.value.scalar);
      FromToLe(oneTime.value.scalar, KEY_BYTES);
    }
  }

  lemma FrontParts(b: PrekeyBundle, tail: seq<byte>)
    requires |b.identity.verifying| == 32 && |b.signature| == 64
    ensures var bytes := BundleFront(b) + tail;
            && bytes[..32] == b.identity.verifying && bytes[32..64] == KeyToBytes(b.identity.agreement.scalar)
            && bytes[64..96] == KeyToBytes(b.signedPrekey.scalar) && bytes[96..160] == b.signature
            && bytes[160..] == tail
  {
  }

  /** A printed bundle parses back, and so does it with anything at all after it. */
  lemma BundleRoundTrip(suite: Suite, b: PrekeyBundle, extra: seq<byte>)
    requires Printable(suite, b)
    ensures BundleFromBytes(suite, BundleToBytes(b) + extra) == Success(b)
  {
    FrontParts(b, OneTimeToBytes(b.oneTime) + extra);
    assert BundleToBytes(b) + extra == BundleFront(b) + (OneTimeToBytes(b.oneTime) + extra);
    FromToLe(b.identity.agreement.scalar, KEY_BYTES);
    FromToLe(b.signedPrekey.scalar, KEY_BYTES);
    OneTimeRoundTrip(b.oneTime, extra);
  }

  /** The 32 little-endian bytes of a number. */
  ghost predicate Digits(bytes: seq<byte>, scalar: nat) {
    |bytes| == 32 && forall k: nat | k < 32 :: bytes[k] == scalar / Pow256(k) % 256
  }

  /** A key stands at this place. */
  ghost predicate KeyAt(bytes: seq<byte>, at: nat, scalar: nat) {
    at + 32 <= |bytes| && Digits(bytes[at..at + 32], scalar)
  }

  lemma KeyDigits(scalar: nat)
    ensures Digits(KeyToBytes(scalar), scalar)
  {
    forall k: nat | k < 32
      ensures KeyToBytes(scalar)[k] == scalar / Pow256(k) % 256
    {
      LeDigit(scalar, 32, k);
    }
  }

  /** The layout of a bundle: both halves of the identity, the signed prekey, its signature, and a flag before the
      one-time key. */
  lemma BundleLayout(b: PrekeyBundle)
    requires |b.identity.verifying| == 32 && |b.signature| == 64
    ensures var bytes := BundleToBytes(b);
            && |bytes| == (if b.oneTime.Some? then 193 else 161)
            && bytes[..32] == b.identity.verifying && KeyAt(bytes, 32, b.identity.agreement.scalar)
            && KeyAt(bytes, 64, b.signedPrekey.scalar) && bytes[96..160] == b.signature
            && bytes[160] == (if b.oneTime.Some? then 1 else 0)
            && (b.oneTime.Some? ==> KeyAt(bytes, 161, b.oneTime.value.scalar))
  {
    var bytes := BundleToBytes(b);
    FrontParts(b, OneTimeToBytes(b.oneTime));
    KeyDigits(b.identity.agreement.scalar);
    KeyDigits(b.signedPrekey.scalar);
    assert bytes[160..][0] == bytes[160];
    if b.oneTime.Some? {
      assert bytes[161..193] == bytes[160..][1..33] == KeyToBytes(b.oneTime.value.scalar);
      KeyDigits(b.oneTime.value.scalar);
    }
  }

  lemma FrontInverts(suite: Suite, bytes: seq<byte>)
    requires BundleFromBytes(suite, bytes).Success?
    ensures BundleFront(BundleFromBytes(suite, bytes).value) == bytes[..160]
  {
    ToFromLe(bytes[32..64]);
    ToFromLe(bytes[64..96]);
    assert bytes[..160] == bytes[..32] + bytes[32..64] + bytes[64..96] + bytes[96..160];
  }

  lemma OneTimeInverts(cursor: seq<byte>)
    requires cursor != [] && OneTimeFromBytes(cursor).Success?
    ensures OneTimeToBytes(OneTimeFromBytes(cursor).value) == cursor[..if cursor[0] == 1 then 33 else 1]
  {
    if cursor[0] == 1 { ToFromLe(cursor[1..33]); }
  }

  /** What is accepted could have been printed: the verifying key is a point and every field fits. */
  lemma BundlePrintable(suite: Suite, bytes: seq<byte>)
    requires BundleFromBytes(suite, bytes).Success?
    ensures Printable(suite, BundleFromBytes(suite, bytes).value)
  {
    ToFromLe(bytes[32..64]);
    ToFromLe(bytes[64..96]);
    if bytes[160] == 1 { ToFromLe(bytes[160..][1..33]); }
  }

  /** Printing undoes parsing exactly on the inputs without trailing bytes, which the parser ignores. */
  lemma BundleInverts(suite: Suite, bytes: seq<byte>)
    requires BundleFromBytes(suite, bytes).Success?
    ensures var printed := BundleToBytes(BundleFromBytes(suite, bytes).value);
            printed <= bytes && (printed == bytes <==> |bytes| == if bytes[160] == 1 then 193 else 161)
  {
    FrontInverts(suite, bytes);
    OneTimeInverts(bytes[160..]);
    var tail := if bytes[160] == 1 then 33 else 1;
    assert bytes[..160] + bytes[160..][..tail] == bytes[..160 + tail];
  }

  // ----- the pool -----

  /** Where the first key with this public part is; the length if there is none. */
  function Position(keys: seq<OneTimePrekey>, public: Public): (i: nat)
    ensures i <= |keys| && (i < |keys| ==> PublicOf(keys[i].secret) == public)
    ensures forall j | 0 <= j < i :: PublicOf(keys[j].secret) != public
  {
    if keys == [] || PublicOf(keys[0].secret) == public then 0 else 1 + Position(keys[1..], public)
  }

  function ConsumeStep(keys: seq<OneTimePrekey>, public: Public): (seq<OneTimePrekey>, Option<OneTimePrekey>) {
    var i := Position(keys, public);
    if i < |keys| then (keys[..i] + keys[i + 1..], Some(keys[i])) else (keys, None)
  }

  lemma PositionIs(keys: seq<OneTimePrekey>, public: Public, i: nat)
    requires i < |keys| && PublicOf(keys[i].secret) == public
    requires forall j | 0 <= j < i :: PublicOf(keys[j].secret) != public
    ensures Position(keys, public) == i
  {
  }

  ghost predicate Increasing(positions: seq<nat>, bound: nat) {
    && (forall i | 0 <= i < |positions| :: positions[i] < bound)
    && (forall i, j | 0 <= i < j < |positions| :: positions[i] < positions[j])
  }

  ghost predicate Selects(all: seq<OneTimePrekey>, positions: seq<nat>, some: seq<OneTimePrekey>) {
    && Increasing(positions, |all|) && |positions| == |some|
    && forall i | 0 <= i < |some| :: some[i] == all[positions[i]]
  }

  /** The keys available are those generated and not consumed, in the order they were generated. */
  ghost predicate Ledger(generated: seq<OneTimePrekey>, available: seq<OneTimePrekey>, consumed: seq<OneTimePrekey>) {
    && multiset(generated) == multiset(available) + multiset(consumed)
    && exists positions :: Selects(generated, positions, available)
  }

  lemma LedgerConsumes(generated: seq<OneTimePrekey>, available: seq<OneTimePrekey>, consumed: seq<OneTimePrekey>,
                       i: nat)
    requires Ledger(generated, available, consumed) && i < |available|
    ensures Ledger(generated, available[..i] + available[i + 1..], consumed + [available[i]])
  {
    var positions :| Selects(generated, positions, available);
    assert Selects(generated, positions[..i] + positions[i + 1..], available[..i] + available[i + 1..]);
    assert available == available[..i] + [available[i]] + available[i + 1..];
  }

  lemma LedgerGrows(generated: seq<OneTimePrekey>, available: seq<OneTimePrekey>, consumed: seq<OneTimePrekey>,
                    more: seq<OneTimePrekey>)
    requires Ledger(generated, available, consumed)
    ensures Ledger(generated + more, available + more, consumed)
  {
    var positions :| Selects(generated, positions, available);
    var later := positions + seq(|more|, k requires 0 <= k < |more| => |generated| + k);
    assert Selects(generated + more, later, available + more);
  }

  lemma {:induction false} DistinctCount<T>(xs: seq<T>, x: T)
    requires Distinct(xs)
    ensures multiset(xs)[x] <= 1
  {
    if xs == [] {
    } else {
      var front, last := xs[..|xs| - 1], xs[|xs| - 1];
      assert xs == front + [last];
      DistinctCount(front, x);
      if x == last { assert last !in front; }
    }
  }

  lemma {:induction false} CountDistinct<T>(xs: seq<T>)
    requires forall x :: multiset(xs)[x] <= 1
    ensures Distinct(xs)
  {
    forall i, j | 0 <= i < |xs| && 0 <= j < |xs| && xs[i] == xs[j]
      ensures i == j
    {
      if i < j { TwiceCounted(xs, i, j); } else if j < i { TwiceCounted(xs, j, i); }
    }
  }

  lemma TwiceCounted<T>(xs: seq<T>, i: nat, j: nat)
    requires i < j < |xs| && xs[i] == xs[j]
    ensures multiset(xs)[xs[i]] >= 2
  {
    assert xs == xs[..i] + [xs[i]] + xs[i + 1..j] + [xs[j]] + xs[j + 1..];
  }

  /** If no key was drawn twice, none is consumed twice, and none is both consumed and still available. */
  lemma ConsumedOnce(generated: seq<OneTimePrekey>, available: seq<OneTimePrekey>, consumed: seq<OneTimePrekey>)
    requires Ledger(generated, available, consumed) && Distinct(generated)
    ensures Distinct(consumed) && Distinct(available)
    ensures forall k :: k in generated <==> (k in available || k in consumed)
    ensures forall k | k in available :: k !in consumed
  {
    forall k
      ensures multiset(available)[k] + multiset(consumed)[k] == multiset(generated)[k] <= 1
    {
      DistinctCount(generated, k);
    }
    CountDistinct(available);
    CountDistinct(consumed);
    forall k
      ensures k in generated <==> (k in available || k in consumed)
    {
      assert k in generated <==> k in multiset(generated);
      assert k in available <==> k in multiset(available);
      assert k in consumed <==> k in multiset(consumed);
    }
    forall k | k in available
      ensures k !in consumed
    {
      assert multiset(available)[k] >= 1;
      assert k in consumed ==> multiset(consumed)[k] >= 1;
    }
  }

  /** What happens to a pool between two rotations, with the books kept beside it. */
  datatype PoolEvent = ToppedUp(drawn: seq<OneTimePrekey>) | Asked(public: Public)

  datatype Books = Books(generated: seq<OneTimePrekey>, available: seq<OneTimePrekey>, consumed: seq<OneTimePrekey>)

  function BookStep(b: Books, event: PoolEvent): Books {
    match event
    case ToppedUp(drawn) => b.(generated := b.generated + drawn, available := b.available + drawn)
    case Asked(public) =>
      var (available, key) := ConsumeStep(b.available, public);
      b.(available := available, consumed := b.consumed + if key.Some? then [key.value] else [])
  }

  function BooksAfter(batch: seq<OneTimePrekey>, events: seq<PoolEvent>): Books {
    if events == [] then Books(batch, batch, [])
    else BookStep(BooksAfter(batch, events[..|events| - 1]), events[|events| - 1])
  }

  lemma StartLedger(batch: seq<OneTimePrekey>)
    ensures Ledger(batch, batch, [])
  {
    assert Selects(batch, seq(|batch|, k requires 0 <= k < |batch| => k), batch);
  }

  /** Over any run of a pool, whatever is asked for, in whatever order and however often: the keys generated are
      those available, in order, and those handed out; and if none was drawn twice none is handed out twice. */
  lemma {:induction false} RunKeepsLedger(batch: seq<OneTimePrekey>, events: seq<PoolEvent>)
    ensures var b := BooksAfter(batch, events); Ledger(b.generated, b.available, b.consumed)
    ensures var b := BooksAfter(batch, events);
            Distinct(b.generated) ==> Distinct(b.consumed) && forall k | k in b.available :: k !in b.consumed
    decreases |events|
  {
    var b := BooksAfter(batch, events);
    if events == [] {
      StartLedger(batch);
    } else {
      var before, last := BooksAfter(batch, events[..|events| - 1]), events[|events| - 1];
      RunKeepsLedger(batch, events[..|events| - 1]);
      BookStepKeeps(before, last);
    }
    if Distinct(b.generated) { ConsumedOnce(b.generated, b.available, b.consumed); }
  }

  lemma BookStepKeeps(b: Books, event: PoolEvent)
    requires Ledger(b.generated, b.available, b.consumed)
    ensures var b' := BookStep(b, event); Ledger(b'.generated, b'.available, b'.consumed)
  {
    match event
    case ToppedUp(drawn) => LedgerGrows(b.generated, b.available, b.consumed, drawn);
    case Asked(public) =>
      var i := Position(b.available, public);
      assert b.consumed + [] == b.consumed;
      if i < |b.available| { LedgerConsumes(b.generated, b.available, b.consumed, i); }
  }

  // ----- persistence -----

  function SignedToBytes(signed: SignedPrekey): seq<byte> {
    KeyToBytes(signed.secret.scalar) + signed.signature
  }

  function KeysToBytes(keys: seq<OneTimePrekey>): (bytes: seq<byte>)
    ensures |bytes| == KEY_BYTES * |keys|
  {
    if keys == [] then [] else KeysToBytes(keys[..|keys| - 1]) + KeyToBytes(keys[|keys| - 1].secret.scalar)
  }

  function PoolToBytes(signed: SignedPrekey, keys: seq<OneTimePrekey>): seq<byte> {
    SignedToBytes(signed) + ToLe(|keys|, 4) + KeysToBytes(keys)
  }

  /** The 32-byte chunks of a buffer that is all chunks, each as a key. */
  function KeysFromBytes(bytes: seq<byte>, n: nat): (keys: seq<OneTimePrekey>)
    requires |bytes| == KEY_BYTES * n
    ensures |keys| == n
  {
    if n == 0 then []
    else
      KeysFromBytes(bytes[..KEY_BYTES * (n - 1)], n - 1) + [OneTimePrekey(Secret(FromLe(bytes[KEY_BYTES * (n - 1)..])))]
  }

  function PoolFromBytes(bytes: seq<byte>): Result<(SignedPrekey, seq<OneTimePrekey>)> {
    if |bytes| < 100 then Failure(Malformed)
    else
      var signed := SignedPrekey(Secret(FromLe(bytes[..32])), bytes[32..96]);
      var count, rest := FromLe(bytes[96..100]), bytes[100..];
      if |rest| != count * KEY_BYTES then Failure(Malformed) else Success((signed, KeysFromBytes(rest, count)))
  }

  lemma {:induction false} KeysRoundTrip(keys: seq<OneTimePrekey>)
    requires forall k | k in keys :: Fits(k.secret.scalar)
    ensures KeysFromBytes(KeysToBytes(keys), |keys|) == keys
    decreases |keys|
  {
    if keys == [] {
    } else {
      var front, last := keys[..|keys| - 1], keys[|keys| - 1];
      assert keys == front + [last] && last in keys;
      KeysSplit(KeysToBytes(front), KeyToBytes(last.secret.scalar));
      KeysRoundTrip(front);
      FromToLe(last.secret.scalar, KEY_BYTES);
    }
  }

  lemma KeysSplit(front: seq<byte>, last: seq<byte>)
    ensures (front + last)[..|front|] == front && (front + last)[|front|..] == last
  {
  }

  /** A pool comes back with the same keys in the same order exactly when their number fits its field. */
  lemma PoolRoundTrip(signed: SignedPrekey, keys: seq<OneTimePrekey>)
    requires Fits(signed.secret.scalar) && |signed.signature| == 64 && forall k | k in keys :: Fits(k.secret.scalar)
    ensures PoolFromBytes(PoolToBytes(signed, keys))
         == if |keys| < U32_LIMIT then Success((signed, keys)) else Failure(Malformed)
  {
    var bytes := PoolToBytes(signed, keys);
    assert bytes[..32] == KeyToBytes(signed.secret.scalar) && bytes[32..96] == signed.signature;
    assert bytes[96..100] == ToLe(|keys|, 4) && bytes[100..] == KeysToBytes(keys);
    FromToLe(signed.secret.scalar, KEY_BYTES);
    U32RoundTrip(|keys|, ToLe(|keys|, 4));
    KeysRoundTrip(keys);
  }

  lemma {:induction false} KeysAt(keys: seq<OneTimePrekey>, i: nat)
    requires i < |keys|
    ensures KeyAt(KeysToBytes(keys), 32 * i, keys[i].secret.scalar)
    decreases |keys|
  {
    var front, last := keys[..|keys| - 1], keys[|keys| - 1];
    var bytes := KeysToBytes(keys);
    if i == |keys| - 1 {
      assert bytes[32 * i..32 * i + 32] == KeyToBytes(last.secret.scalar);
      KeyDigits(last.secret.scalar);
    } else {
      KeysAt(front, i);
      assert bytes[32 * i..32 * i + 32] == KeysToBytes(front)[32 * i..32 * i + 32];
    }
  }

  /** The layout of a persisted pool: the signed prekey, its signature, the number of one-time keys, and each of them
      in order. */
  lemma PoolLayout(signed: SignedPrekey, keys: seq<OneTimePrekey>, i: nat)
    requires |signed.signature| == 64
    ensures var bytes := PoolToBytes(signed, keys);
            && |bytes| == 100 + 32 * |keys|
            && KeyAt(bytes, 0, signed.secret.scalar) && bytes[32..96] == signed.signature
            && (forall k: nat | k < 4 :: bytes[96 + k] == |keys| / Pow256(k) % 256)
            && (i < |keys| ==> KeyAt(bytes, 100 + 32 * i, keys[i].secret.scalar))
  {
    var bytes := PoolToBytes(signed, keys);
    assert bytes[0..32] == KeyToBytes(signed.secret.scalar);
    KeyDigits(signed.secret.scalar);
    forall k: nat | k < 4
      ensures bytes[96 + k] == |keys| / Pow256(k) % 256
    {
      LeDigit(|keys|, 4, k);
    }
    if i < |keys| {
      KeysAt(keys, i);
      assert bytes[100..] == KeysToBytes(keys);
      assert bytes[100 + 32 * i..100 + 32 * i + 32] == bytes[100..][32 * i..32 * i + 32];
    }
  }

  lemma {:induction false} KeysInvert(bytes: seq<byte>, n: nat)
    requires |bytes| == KEY_BYTES * n
    ensures KeysToBytes(KeysFromBytes(bytes, n)) == bytes
    decreases n
  {
    if n == 0 {
    } else {
      var front, last := bytes[..KEY_BYTES * (n - 1)], bytes[KEY_BYTES * (n - 1)..];
      KeysInvert(front, n - 1);
      ToFromLe(last);
      assert KeysFromBytes(bytes, n)[..n - 1] == KeysFromBytes(front, n - 1);
      assert bytes == front + last;
    }
  }

  /** Any bytes that parse are what the parsed pool prints. */
  lemma PoolInverts(bytes: seq<byte>)
    requires PoolFromBytes(bytes).Success?
    ensures var (signed, keys) := PoolFromBytes(bytes).value;
            PoolToBytes(signed, keys) == bytes && |keys| < U32_LIMIT
  {
    var count := FromLe(bytes[96..100]);
    assert bytes == bytes[..96] + bytes[96..100] + bytes[100..];
    assert SignedToBytes(PoolFromBytes(bytes).value.0) == bytes[..96] by {
      ToFromLe(bytes[..32]);
      assert bytes[..96] == bytes[..32] + bytes[32..96];
    }
    U32RoundTrip(0, bytes[96..100]);
    KeysInvert(bytes[100..], count);
  }

  // ----- the pool object -----

  class PrekeyPool {
    var signedPrekey: SignedPrekey
    var available: seq<OneTimePrekey>
    ghost var generated: seq<OneTimePrekey>
    ghost var consumed: seq<OneTimePrekey>

    ghost predicate Valid()
      reads this
    {
      Ledger(generated, available, consumed)
    }

    constructor (signed: SignedPrekey, drawn: seq<OneTimePrekey>)
      ensures Valid() && signedPrekey == signed && available == generated == drawn && consumed == []
    {
      signedPrekey, available, generated, consumed := signed, drawn, drawn, [];
      new;
      StartLedger(drawn);
    }

    method TopUp(drawn: seq<OneTimePrekey>)
      requires Valid()
      modifies `available, `generated
      ensures Valid() && available == old(available) + drawn && generated == old(generated) + drawn
    {
      LedgerGrows(generated, available, consumed, drawn);
      available, generated := available + drawn, generated + drawn;
    }

    method Consume(public: Public) returns (key: Option<OneTimePrekey>)
      requires Valid()
      modifies `available, `consumed
      ensures Valid() && (available, key) == ConsumeStep(old(available), public)
      ensures consumed == old(consumed) + if key.Some? then [key.value] else []
      ensures key.None? <==> forall k | k in old(available) :: PublicOf(k.secret) != public
    {
      for i := 0 to |available|
        invariant forall j | 0 <= j < i :: PublicOf(available[j].secret) != public
      {
        if PublicOf(available[i].secret) == public {
          PositionIs(available, public, i);
          LedgerConsumes(generated, available, consumed, i);
          key := Some(available[i]);
          available, consumed := available[..i] + available[i + 1..], consumed + [available[i]];
          return;
        }
      }
      key := None;
    }

    method RotateSignedPrekey(signed: SignedPrekey)
      requires Valid()
      modifies `signedPrekey
      ensures Valid() && signedPrekey == signed
    {
      signedPrekey := signed;
    }

    method ToBytes() returns (bytes: seq<byte>)
      ensures bytes == PoolToBytes(signedPrekey, available)
    {
      bytes := SignedToBytes(signedPrekey) + ToLe(|available|, 4);
      ghost var front := bytes;
      for i := 0 to |available|
        invariant bytes == front + KeysToBytes(available[..i])
      {
        assert available[..i + 1][..i] == available[..i];
        bytes := bytes + KeyToBytes(available[i].secret.scalar);
      }
      assert available[..|available|] == available;
    }
  }
}
