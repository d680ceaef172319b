/** The hybrid bootstrap: from a published bundle to a pair of ratchets (core/src/crypto/pqxdh.rs). */
module Pqxdh {
  import opened Bytes
  import opened Collections
  import opened Wrappers
  import opened SymbolicCrypto
  import opened Prekeys
  import Ratchet
  import Session

  /** The post-quantum prekey: the seed its key pair grows from, and the owner's signature on the public half. */
  datatype PqPrekey = PqPrekey(seed: seq<byte>, signature: seq<byte>)

  datatype Pool = Pool(signed: SignedPrekey, available: seq<OneTimePrekey>, pq: PqPrekey)

  datatype HybridBundle = HybridBundle(classical: PrekeyBundle, encapsulationKey: seq<byte>, signature: seq<byte>)

  function GeneratePq(suite: Suite, identity: Identity, seed: seq<byte>): PqPrekey {
    PqPrekey(seed, suite.sign(identity.signing, suite.encapsulationKey(seed)))
  }

  /** The bundle to publish: it names the oldest one-time key still available, if any. */
  function CurrentBundle(suite: Suite, pool: Pool, identity: PublicIdentity): HybridBundle {
    HybridBundle(
      PrekeyBundle(identity, PublicOf(pool.signed.secret), pool.signed.signature,
                   if pool.available == [] then None else Some(PublicOf(pool.available[0].secret))),
      suite.encapsulationKey(pool.pq.seed), pool.pq.signature)
  }

  predicate VerifyBundle(suite: Suite, bundle: HybridBundle) {
    && VerifySigned(suite, bundle.classical)
    && suite.verify(bundle.classical.identity.verifying, bundle.encapsulationKey, bundle.signature)
  }

  datatype HybridInitiation = HybridInitiation(shared: SharedSecret, ephemeral: Public, ciphertext: seq<byte>,
                                               used: Option<Public>)

  function HybridInitiate(suite: Suite, sender: Identity, bundle: HybridBundle, ephemeral: Secret,
                          drawn: nat): Result<HybridInitiation> {
    if !VerifyBundle(suite, bundle) then Failure(BadSignature)
    else
      match Initiate(suite, sender, bundle.classical, ephemeral)
      case Failure(e) => Failure(e)
      case Success(classical) =>
        var (ciphertext, pq) := suite.encapsulate(bundle.encapsulationKey, drawn);
        Success(HybridInitiation(HybridSecret(classical.shared, pq), classical.ephemeral, ciphertext, classical.used))
  }

  /** A hybrid bundle is taken up exactly if both signatures verify under its own verifying key, the one on the 32
      bytes of the signed prekey and the one on the encapsulation key; otherwise nothing is derived. */
  lemma InitiatesIff(suite: Suite, sender: Identity, bundle: HybridBundle, ephemeral: Secret, drawn: nat)
    ensures HybridInitiate(suite, sender, bundle, ephemeral, drawn).Success?
       <==> suite.verify(bundle.classical.identity.verifying, ToLe(bundle.classical.signedPrekey.scalar, 32),
                         bundle.classical.signature)
            && suite.verify(bundle.classical.identity.verifying, bundle.encapsulationKey, bundle.signature)
    ensures HybridInitiate(suite, sender, bundle, ephemeral, drawn).Failure? ==>
              HybridInitiate(suite, sender, bundle, ephemeral, drawn) == Failure(BadSignature)
  {
    Prekeys.InitiatesIff(suite, sender, bundle.classical, ephemeral);
  }

  function HybridRespond(suite: Suite, recipient: Identity, signed: SignedPrekey, pq: PqPrekey,
                         oneTime: Option<OneTimePrekey>,
                         sender: PublicIdentity, ephemeral: Public, ciphertext: seq<byte>): SharedSecret {
    HybridSecret(Respond(recipient, signed, oneTime, sender, ephemeral), suite.decapsulate(pq.seed, ciphertext))
  }

  // ----- the published bundle and the persisted pool -----

  function HybridToBytes(b: HybridBundle): seq<byte> {
    ToLe(|BundleToBytes(b.classical)|, 4) + BundleToBytes(b.classical) + b.encapsulationKey + b.signature
  }

  function HybridFromBytes(suite: Suite, bytes: seq<byte>): Result<HybridBundle> {
    if |bytes| < 4 then Failure(Malformed)
    else
      var len, rest := FromLe(bytes[..4]), bytes[4..];
      if |rest| < len + 64 then Failure(Malformed)
      else
        var classical :- BundleFromBytes(suite, rest[..len]);
        var key, signature := rest[len..|rest| - 64], rest[|rest| - 64..];
        if |key| != CIPHERTEXT_BYTES || !suite.isEncapsulationKey(key) then Failure(Malformed)
        else Success(HybridBundle(classical, key, signature))
  }

  lemma HybridRoundTrip(suite: Suite, b: HybridBundle)
    requires Printable(suite, b.classical) && |b.signature| == 64
    requires |b.encapsulationKey| == CIPHERTEXT_BYTES && suite.isEncapsulationKey(b.encapsulationKey)
    ensures HybridFromBytes(suite, HybridToBytes(b)) == Success(b)
  {
    var bytes, classical := HybridToBytes(b), BundleToBytes(b.classical);
    var rest := classical + b.encapsulationKey + b.signature;
    assert bytes[..4] == ToLe(|classical|, 4) && bytes[4..] == rest;
    assert rest[..|classical|] == classical && rest[|rest| - 64..] == b.signature;
    assert rest[|classical|..|rest| - 64] == b.encapsulationKey;
    U32RoundTrip(|classical|, []);
    BundleRoundTrip(suite, b.classical, []);
    assert classical + [] == classical;
  }

  function HybridPoolToBytes(pool: Pool): seq<byte> {
    var classical := PoolToBytes(pool.signed, pool.available);
    ToLe(|classical|, 4) + classical + (pool.pq.seed + pool.pq.signature)
  }

  function HybridPoolFromBytes(bytes: seq<byte>): Result<Pool> {
    if |bytes| < 4 then Failure(Malformed)
    else
      var len, rest := FromLe(bytes[..4]), bytes[4..];
      if |rest| < len then Failure(Malformed)
      else
        var (signed, available) :- PoolFromBytes(rest[..len]);
        if |rest[len..]| != 128 then Failure(Malformed)
        else Success(Pool(signed, available, PqPrekey(rest[len..][..64], rest[len..][64..])))
  }

  /** A pool survives a restart whole, keys in order, if what it prints fits its length field. */
  lemma HybridPoolRoundTrip(pool: Pool)
    requires Fits(pool.signed.secret.scalar) && |pool.signed.signature| == 64 && |pool.pq.seed| == 64
    requires |pool.pq.signature| == 64
    requires (forall k | k in pool.available :: Fits(k.secret.scalar))
    requires |PoolToBytes(pool.signed, pool.available)| < U32_LIMIT
    ensures HybridPoolFromBytes(HybridPoolToBytes(pool)) == Success(pool)
  {
    var bytes, classical, pq :=
        HybridPoolToBytes(pool), PoolToBytes(pool.signed, pool.available), pool.pq.seed + pool.pq.signature;
    assert bytes[..4] == ToLe(|classical|, 4) && bytes[4..] == classical + pq;
    assert (classical + pq)[..|classical|] == classical && (classical + pq)[|classical|..] == pq;
    assert pq[..64] == pool.pq.seed && pq[64..] == pool.pq.signature;
    U32RoundTrip(|classical|, []);
    PoolRoundTrip(pool.signed, pool.available);
  }

  lemma Rejoined(bytes: seq<byte>, len: nat)
    requires 4 + len <= |bytes|
    ensures var rest := bytes[4..];
            bytes == bytes[..4] + rest[..len] + rest[len..]
  {
  }

  lemma Halved(s: seq<byte>)
    requires |s| == 128
    ensures s == s[..64] + s[64..]
  {
  }

  /** Any bytes that parse as a hybrid pool are what it prints. */
  lemma HybridPoolInverts(bytes: seq<byte>)
    requires HybridPoolFromBytes(bytes).Success?
    ensures var pool := HybridPoolFromBytes(bytes).value;
            HybridPoolToBytes(pool) == bytes && |pool.pq.seed| == 64 && |pool.pq.signature| == 64
  {
    var len, rest := FromLe(bytes[..4]), bytes[4..];
    U32RoundTrip(0, bytes[..4]);
    PoolInverts(rest[..len]);
    Halved(rest[len..]);
    Rejoined(bytes, len);
  }

  /** What is accepted as a hybrid bundle has a point, a well-formed encapsulation key and fields that fit, and is what
      that bundle prints exactly if its classical part has no trailing bytes. */
  lemma HybridInverts(suite: Suite, bytes: seq<byte>)
    requires HybridFromBytes(suite, bytes).Success?
    ensures var b := HybridFromBytes(suite, bytes).value;
            && Printable(suite, b.classical) && |b.signature| == 64
            && |b.encapsulationKey| == 1568 && suite.isEncapsulationKey(b.encapsulationKey)
            && (HybridToBytes(b) == bytes <==> FromLe(bytes[..4]) == |BundleToBytes(b.classical)|)
  {
    var len, rest, b := FromLe(bytes[..4]), bytes[4..], HybridFromBytes(suite, bytes).value;
    BundlePrintable(suite, rest[..len]);
    BundleInverts(suite, rest[..len]);
    HybridPrinted(bytes, len, b);
  }

  lemma HybridPrinted(bytes: seq<byte>, len: nat, b: HybridBundle)
    requires |bytes| >= 4 + len + 64 && len == FromLe(bytes[..4]) && BundleToBytes(b.classical) <= bytes[4..4 + len]
    requires b.encapsulationKey == bytes[4 + len..|bytes| - 64] && b.signature == bytes[|bytes| - 64..]
    requires |b.encapsulationKey| == 1568
    ensures HybridToBytes(b) == bytes <==> len == |BundleToBytes(b.classical)|
  {
    var classical := BundleToBytes(b.classical);
    U32RoundTrip(|classical|, bytes[..4]);
    if len == |classical| {
      assert classical == bytes[4..4 + len];
      assert bytes == bytes[..4] + bytes[4..4 + len] + bytes[4 + len..|bytes| - 64] + bytes[|bytes| - 64..];
    } else {
      assert |HybridToBytes(b)| == 4 + |classical| + 1568 + 64 && |bytes| == 4 + len + 1568 + 64;
    }
  }

  // ----- the first-contact message -----

  datatype Parsed = Parsed(sender: PublicIdentity, ephemeral: Public, used: Option<Public>, ciphertext: seq<byte>)

  function Pack(m: Parsed): seq<byte> {
    m.sender.verifying + KeyToBytes(m.sender.agreement.scalar) + KeyToBytes(m.ephemeral.scalar)
    + OneTimeToBytes(m.used) + m.ciphertext
  }

  function UnpackUsed(cursor: seq<byte>): Result<(Option<Public>, seq<byte>)>
    requires cursor != []
  {
    match cursor[0]
    case 0 => Success((None, cursor[1..]))
    case 1 => if |cursor| < 33 then Failure(Malformed) else Success((Some(Public(FromLe(cursor[1..33]))), cursor[33..]))
    case _ => Failure(Malformed)
  }

  function Unpack(suite: Suite, bytes: seq<byte>): Result<Parsed> {
    if |bytes| < 97 || !suite.isPoint(bytes[..32]) then Failure(Malformed)
    else
      var (used, ciphertext) :- UnpackUsed(bytes[96..]);
      if |ciphertext| != CIPHERTEXT_BYTES then Failure(Malformed)
      else Success(Parsed(PublicIdentity(bytes[..32], Public(FromLe(bytes[32..64]))), Public(FromLe(bytes[64..96])),
                          used, ciphertext))
  }

  /** Keys that fit their fields and a ciphertext of the one length there is. */
  ghost predicate Packable(suite: Suite, m: Parsed) {
    && |m.sender.verifying| == 32 && suite.isPoint(m.sender.verifying)
    && Fits(m.sender.agreement.scalar) && Fits(m.ephemeral.scalar) && (m.used.Some? ==> Fits(m.used.value.scalar))
    && |m.ciphertext| == CIPHERTEXT_BYTES
  }

  lemma UsedRoundTrip(used: Option<Public>, ciphertext: seq<byte>)
    requires used.Some? ==> Fits(used.value.scalar)
    ensures UnpackUsed(OneTimeToBytes(used) + ciphertext) == Success((used, ciphertext))
  {
    if used.Some? {
      var cursor := OneTimeToBytes(used) + ciphertext;
      assert cursor[1..33] == KeyToBytes(used.value.scalar) && cursor[33..] == ciphertext;
      FromToLe(used.value.scalar, KEY_BYTES);
    }
  }

  /** What the initiator packs is what the responder reads. */
  lemma UnpackPack(suite: Suite, m: Parsed)
    requires Packable(suite, m)
    ensures Unpack(suite, Pack(m)) == Success(m)
  {
    var bytes := Pack(m);
    var tail := OneTimeToBytes(m.used) + m.ciphertext;
    assert bytes == m.sender.verifying + KeyToBytes(m.sender.agreement.scalar) + KeyToBytes(m.ephemeral.scalar) + tail;
    assert bytes[..32] == m.sender.verifying && bytes[32..64] == KeyToBytes(m.sender.agreement.scalar);
    assert bytes[64..96] == KeyToBytes(m.ephemeral.scalar) && bytes[96..] == tail;
    FromToLe(m.sender.agreement.scalar, KEY_BYTES);
    FromToLe(m.ephemeral.scalar, KEY_BYTES);
    UsedRoundTrip(m.used, m.ciphertext);
  }

  lemma FlaggedKey(cursor: seq<byte>)
    requires |cursor| >= 33
    ensures cursor == [cursor[0]] + cursor[1..33] + cursor[33..]
  {
  }

  lemma UsedInverts(cursor: seq<byte>)
    requires cursor != [] && UnpackUsed(cursor).Success?
    ensures var (used, rest) := UnpackUsed(cursor).value;
            OneTimeToBytes(used) + rest == cursor && (used.Some? ==> Fits(used.value.scalar))
  {
    if cursor[0] == 1 {
      ToFromLe(cursor[1..33]);
      FlaggedKey(cursor);
    }
  }

  lemma Quartered(bytes: seq<byte>, used: seq<byte>, rest: seq<byte>)
    requires |bytes| >= 96 && bytes[96..] == used + rest
    ensures bytes == bytes[..32] + bytes[32..64] + bytes[64..96] + used + rest
  {
  }

  /** Whatever is accepted as a first message is the one packing of what it is read as, and could have been packed. */
  lemma PackUnpack(suite: Suite, bytes: seq<byte>)
    requires Unpack(suite, bytes).Success?
    ensures Packable(suite, Unpack(suite, bytes).value) && Pack(Unpack(suite, bytes).value) == bytes
  {
    var m := Unpack(suite, bytes).value;
    ToFromLe(bytes[32..64]);
    ToFromLe(bytes[64..96]);
    UsedInverts(bytes[96..]);
    Quartered(bytes, OneTimeToBytes(m.used), m.ciphertext);
  }

  /** The layout of the first message: the sender's identity, its ephemeral key, a flag before the one-time key used,
      and the ciphertext. */
  lemma PackLayout(m: Parsed)
    requires |m.sender.verifying| == 32
    ensures var bytes, tail := Pack(m), if m.used.Some? then 129 else 97;
            && bytes[..32] == m.sender.verifying && KeyAt(bytes, 32, m.sender.agreement.scalar)
            && KeyAt(bytes, 64, m.ephemeral.scalar) && bytes[96] == (if m.used.Some? then 1 else 0)
            && (m.used.Some? ==> KeyAt(bytes, 97, m.used.value.scalar))
            && bytes[tail..] == m.ciphertext
  {
    var bytes := Pack(m);
    assert bytes[32..64] == KeyToBytes(m.sender.agreement.scalar) && bytes[64..96] == KeyToBytes(m.ephemeral.scalar);
    KeyDigits(m.sender.agreement.scalar);
    KeyDigits(m.ephemeral.scalar);
    assert bytes[96..] == OneTimeToBytes(m.used) + m.ciphertext;
    assert bytes[96] == bytes[96..][0];
    if m.used.Some? {
      assert bytes[97..129] == bytes[96..][1..33] == KeyToBytes(m.used.value.scalar);
      KeyDigits(m.used.value.scalar);
    }
  }

  // ----- both sides -----

  /** What the initiator's side makes of a bundle: its ratchet and the message to send. */
  function Open(suite: Suite, sender: Identity, bundle: HybridBundle, ephemeral: Secret, drawn: nat,
                ratchetKey: Secret): Result<(Ratchet.State, seq<byte>)> {
    var init :- HybridInitiate(suite, sender, bundle, ephemeral, drawn);
    Success((Ratchet.InitInitiator(init.shared, bundle.classical.signedPrekey, ratchetKey),
             Pack(Parsed(sender.PublicPart(suite), init.ephemeral, init.used, init.ciphertext))))
  }

  /** What the responder's side makes of the message: a one-time key that is gone is refused. */
  function Answer(suite: Suite, recipient: Identity, pool: Pool, message: seq<byte>): (Pool, Result<Ratchet.State>) {
    match Unpack(suite, message)
    case Failure(e) => (pool, Failure(e))
    case Success(m) =>
      var (available, key) :=
          if m.used.Some? then ConsumeStep(pool.available, m.used.value) else (pool.available, None);
      if m.used.Some? && key.None? then (pool, Failure(KeyAlreadyConsumed))
      else
        var shared := HybridRespond(suite, recipient, pool.signed, pool.pq, key, m.sender, m.ephemeral, m.ciphertext);
        (pool.(available := available), Success(Ratchet.InitResponder(shared, pool.signed.secret)))
  }

  /** A pool its owner generated and signed. */
  ghost predicate Owned(suite: Suite, pool: Pool, owner: Identity) {
    && pool.signed == GenerateSigned(suite, owner, pool.signed.secret) && Fits(pool.signed.secret.scalar)
    && pool.pq == GeneratePq(suite, owner, pool.pq.seed)
    && forall k | k in pool.available :: Fits(k.secret.scalar)
  }

  lemma DhCommutes(a: Secret, b: Secret)
    ensures Dh(a, PublicOf(b)) == Dh(b, PublicOf(a))
  {
  }

  lemma AvailableKey(keys: seq<OneTimePrekey>, key: OneTimePrekey)
    ensures ConsumeStep(keys, PublicOf(key.secret)).1 == if key in keys then Some(key) else None
  {
    var i := Position(keys, PublicOf(key.secret));
    if i == |keys| {
      assert key !in keys;
    } else {
      assert keys[i] == key;
    }
  }

  /** The message an honest initiator sends reads back as its parts. */
  lemma OpenReads(suite: Suite, alice: Identity, bob: Identity, published: Pool, ephemeral: Secret, drawn: nat,
                  ratchetKey: Secret)
    requires Lawful(suite) && Owned(suite, published, bob)
    requires Fits(alice.agreement.scalar) && Fits(ephemeral.scalar)
    ensures var bundle := CurrentBundle(suite, published, bob.PublicPart(suite));
            var (ciphertext, pq) := suite.encapsulate(suite.encapsulationKey(published.pq.seed), drawn);
            var opening := Open(suite, alice, bundle, ephemeral, drawn, ratchetKey);
            && opening.Success? && suite.decapsulate(published.pq.seed, ciphertext) == pq
            && Unpack(suite, opening.value.1)
               == Success(Parsed(alice.PublicPart(suite), PublicOf(ephemeral), bundle.classical.oneTime, ciphertext))
  {
    var bundle := CurrentBundle(suite, published, bob.PublicPart(suite));
    var ciphertext := suite.encapsulate(suite.encapsulationKey(published.pq.seed), drawn).0;
    assert VerifyBundle(suite, bundle);
    var m := Parsed(alice.PublicPart(suite), PublicOf(ephemeral), bundle.classical.oneTime, ciphertext);
    if published.available != [] { assert published.available[0] in published.available; }
    assert Packable(suite, m);
    UnpackPack(suite, m);
  }

  /** The secret the initiator derives from a published bundle. */
  function SharedBy(suite: Suite, alice: Identity, bob: Identity, published: Pool, ephemeral: Secret,
                    drawn: nat): SharedSecret {
    var spk := PublicOf(published.signed.secret);
    HybridSecret(
      X3dhSecret(Dh(alice.agreement, spk), Dh(ephemeral, PublicOf(bob.agreement)), Dh(ephemeral, spk),
                 if published.available == [] then None
                 else Some(Dh(ephemeral, PublicOf(published.available[0].secret)))),
      suite.encapsulate(suite.encapsulationKey(published.pq.seed), drawn).1)
  }

  lemma OpenDerives(suite: Suite, alice: Identity, bob: Identity, published: Pool, ephemeral: Secret, drawn: nat,
                    ratchetKey: Secret)
    requires Lawful(suite) && Owned(suite, published, bob)
    ensures var opening :=
            Open(suite, alice, CurrentBundle(suite, published, bob.PublicPart(suite)), ephemeral, drawn, ratchetKey);
            opening.Success?
            && opening.value.0 == Ratchet.InitInitiator(SharedBy(suite, alice, bob, published, ephemeral, drawn),
                                                        PublicOf(published.signed.secret), ratchetKey)
  {
    assert VerifyBundle(suite, CurrentBundle(suite, published, bob.PublicPart(suite)));
  }

  /** The two X3DH computations agree term by term exactly when they use the same signed prekey. */
  lemma SameX3dh(alice: Identity, bob: Identity, ephemeral: Secret, spk: SignedPrekey, later: SignedPrekey,
                 key: Option<OneTimePrekey>, sender: PublicIdentity)
    requires sender.agreement == PublicOf(alice.agreement)
    ensures Respond(bob, later, key, sender, PublicOf(ephemeral))
         == X3dhSecret(Dh(alice.agreement, PublicOf(spk.secret)), Dh(ephemeral, PublicOf(bob.agreement)),
                       Dh(ephemeral, PublicOf(spk.secret)),
                       if key.Some? then Some(Dh(ephemeral, PublicOf(key.value.secret))) else None)
       <==> later.secret == spk.secret
  {
    DhCommutes(alice.agreement, spk.secret);
    DhCommutes(ephemeral, bob.agreement);
    DhCommutes(ephemeral, spk.secret);
    if key.Some? { DhCommutes(ephemeral, key.value.secret); }
    if later.secret != spk.secret { DhSeparates(alice.agreement, later.secret, spk.secret); }
  }

  lemma DhSeparates(a: Secret, b: Secret, c: Secret)
    requires b != c
    ensures Dh(b, PublicOf(a)) != Dh(a, PublicOf(c))
  {
  }

  /** The later pool's post-quantum key reads the encapsulated secret as the initiator does; it does if it was not
      rotated. */
  predicate SamePq(suite: Suite, published: Pool, later: Pool, drawn: nat) {
    var (ciphertext, pq) := suite.encapsulate(suite.encapsulationKey(published.pq.seed), drawn);
    suite.decapsulate(later.pq.seed, ciphertext) == pq
  }

  /** The bootstrap, through the packed message and a pool that may have been used, topped up and had either
      prekey rotated in between: the responder answers exactly when the one-time key the bundle named, if it named
      one, is still available; and then the two sides derive the same secret exactly when the signed prekey was not
      rotated and the post-quantum key still reads the ciphertext alike, as it does if it was not rotated either;
      and then they are a freshly paired session. */
  lemma BootstrapPairs(suite: Suite, alice: Identity, bob: Identity, published: Pool, later: Pool, ephemeral: Secret,
                       drawn: nat, ratchetKey: Secret)
    requires Lawful(suite) && Owned(suite, published, bob)
    requires Fits(alice.agreement.scalar) && Fits(ephemeral.scalar)
    ensures later.pq.seed == published.pq.seed ==> SamePq(suite, published, later, drawn)
    ensures var bundle := CurrentBundle(suite, published, bob.PublicPart(suite));
            var opening := Open(suite, alice, bundle, ephemeral, drawn, ratchetKey);
            opening.Success?
            && var answer := Answer(suite, bob, later, opening.value.1).1;
            var shared := SharedBy(suite, alice, bob, published, ephemeral, drawn);
            var same := later.signed.secret == published.signed.secret && SamePq(suite, published, later, drawn);
            && (answer.Success? <==> (published.available == [] || published.available[0] in later.available))
            && (answer.Success? ==> (same <==> answer.value.root == Seed(shared)))
            && (answer.Success? && same ==>
                  Session.Session(shared, [published.signed.secret, ratchetKey], opening.value.0, answer.value,
                                  [[], []], {})
                  == Session.Start(shared, published.signed.secret, ratchetKey))
  {
    var bundle := CurrentBundle(suite, published, bob.PublicPart(suite));
    OpenReads(suite, alice, bob, published, ephemeral, drawn, ratchetKey);
    OpenDerives(suite, alice, bob, published, ephemeral, drawn, ratchetKey);
    var key := None;
    if published.available != [] {
      AvailableKey(later.available, published.available[0]);
      key := Some(published.available[0]);
    }
    SameX3dh(alice, bob, ephemeral, published.signed, later.signed, key, alice.PublicPart(suite));
  }

  /** What answering costs: the first key with the public part named leaves the pool, the others keep their order, and
      the prekeys stay; a message that is refused, or that names no key, costs nothing. */
  lemma AnswerSpends(suite: Suite, recipient: Identity, pool: Pool, message: seq<byte>)
    ensures var (after, answer) := Answer(suite, recipient, pool, message);
            && after.signed == pool.signed && after.pq == pool.pq
            && (answer.Failure? ==> after == pool)
            && (after != pool ==>
                  exists i: nat ::
                    && i < |pool.available| && after.available == pool.available[..i] + pool.available[i + 1..]
                    && Unpack(suite, message).Success?
                    && Unpack(suite, message).value.used == Some(PublicOf(pool.available[i].secret)))
            && (answer.Success? && Unpack(suite, message).value.used.Some? ==> after != pool)
  {
    if Unpack(suite, message).Success? && Unpack(suite, message).value.used.Some? {
      var i := Position(pool.available, Unpack(suite, message).value.used.value);
      if i < |pool.available| { assert |pool.available[..i] + pool.available[i + 1..]| == |pool.available| - 1; }
    }
  }

  /** A one-time key answers one message: the same message again is refused. */
  lemma ReplayRefused(suite: Suite, alice: Identity, bob: Identity, published: Pool, later: Pool, ephemeral: Secret,
                      drawn: nat, ratchetKey: Secret)
    requires Lawful(suite) && Owned(suite, published, bob) && published.available != [] && Distinct(later.available)
    requires Fits(alice.agreement.scalar) && Fits(ephemeral.scalar)
    ensures var bundle := CurrentBundle(suite, published, bob.PublicPart(suite));
            var opening := Open(suite, alice, bundle, ephemeral, drawn, ratchetKey);
            opening.Success?
            && var (after, answer) := Answer(suite, bob, later, opening.value.1);
            answer.Success? ==> Answer(suite, bob, after, opening.value.1) == (after, Failure(KeyAlreadyConsumed))
  {
    OpenReads(suite, alice, bob, published, ephemeral, drawn, ratchetKey);
    var key := published.available[0];
    var (available, _) := ConsumeStep(later.available, PublicOf(key.secret));
    AvailableKey(later.available, key);
    AvailableKey(available, key);
    if key in later.available { assert key !in available; }
  }

  /** After the bootstrap the session keeps the ratchet's promise: after any legal run a first delivery that fits
      opens to what was sent, a repeat is refused without a trace, and neither side is more than one ratchet key
      behind. */
  lemma BootstrapDelivers(suite: Suite, alice: Identity, bob: Identity, published: Pool, later: Pool, ephemeral: Secret,
                          drawn: nat, ratchetKey: Secret,
                          events: seq<Session.Event>, to: Session.Party, chain: nat, n: nat, next: Secret)
    requires Lawful(suite) && Owned(suite, published, bob)
    requires SamePq(suite, published, later, drawn) && later.signed.secret == published.signed.secret != ratchetKey
    requires published.available == [] || published.available[0] in later.available
    requires Fits(alice.agreement.scalar) && Fits(ephemeral.scalar)
    requires var opening :=
             Open(suite, alice, CurrentBundle(suite, published, bob.PublicPart(suite)), ephemeral, drawn, ratchetKey);
             opening.Success?
             && var answer := Answer(suite, bob, later, opening.value.1).1;
             answer.Success?
             && var start := Session.Session(SharedBy(suite, alice, bob, published, ephemeral, drawn),
                                             [published.signed.secret, ratchetKey],
                                             opening.value.0, answer.value, [[], []], {});
             Session.LegalRun(start, events)
                 && Session.Legal(Session.Run(start, events), Session.Deliver(to, chain, n, next))
    ensures var shared := SharedBy(suite, alice, bob, published, ephemeral, drawn);
            var net := Session.Run(Session.Start(shared, published.signed.secret, ratchetKey), events);
            && net.Exists(chain, n)
            && (if (chain, n) in net.delivered
                then Session.Received(net, to, chain, n, next) == (net.Of(to), Failure(KeyAlreadyConsumed))
                else Session.Received(net, to, chain, n, next).1 == Success(net.sent[chain][n].value.plaintext))
            && Session.AtMostOneBehind(net, to)
  {
    BootstrapPairs(suite, alice, bob, published, later, ephemeral, drawn, ratchetKey);
    Session.SessionDelivers(SharedBy(suite, alice, bob, published, ephemeral, drawn), published.signed.secret,
                            ratchetKey, events, to, chain, n, next);
  }

  // ----- the pool object -----

  class HybridPrekeyPool {
    const classical: PrekeyPool
    var pq: PqPrekey

    ghost predicate Valid()
      reads this, classical
    {
      classical.Valid()
    }

    function View(): Pool
      reads this, classical
    {
      Pool(classical.signedPrekey, classical.available, pq)
    }

    constructor (suite: Suite, identity: Identity, drawn: Secret, batch: seq<OneTimePrekey>, seed: seq<byte>)
      ensures Valid() && fresh(classical)
      ensures View() == Pool(GenerateSigned(suite, identity, drawn), batch, GeneratePq(suite, identity, seed))
    {
      classical := new PrekeyPool(GenerateSigned(suite, identity, drawn), batch);
      pq := GeneratePq(suite, identity, seed);
    }

    method RotatePqPrekey(suite: Suite, identity: Identity, seed: seq<byte>)
      requires Valid()
      modifies `pq
      ensures Valid() && View() == old(View()).(pq := GeneratePq(suite, identity, seed))
    {
      pq := GeneratePq(suite, identity, seed);
    }

    method RotateSignedPrekey(suite: Suite, identity: Identity, drawn: Secret)
      requires Valid()
      modifies classical
      ensures Valid() && View() == old(View()).(signed := GenerateSigned(suite, identity, drawn))
    {
      classical.RotateSignedPrekey(GenerateSigned(suite, identity, drawn));
    }

    /** The native layer's answer to a first message, over this pool. */
    method AnswerMessage(suite: Suite, recipient: Identity, message: seq<byte>) returns (answer: Result<Ratchet.State>)
      requires Valid()
      modifies classical
      ensures Valid() && (View(), answer) == Answer(suite, recipient, old(View()), message)
    {
      var parsed := Unpack(suite, message);
      if parsed.Failure? { return Failure(parsed.error); }
      var m, key := parsed.value, None;
      if m.used.Some? {
        key := classical.Consume(m.used.value);
        if key.None? { return Failure(KeyAlreadyConsumed); }
      }
      var shared :=
          HybridRespond(suite, recipient, classical.signedPrekey, pq, key, m.sender, m.ephemeral, m.ciphertext);
      answer := Success(Ratchet.InitResponder(shared, classical.signedPrekey.secret));
    }
  }
}
