/** The cryptographic primitives as free terms: a key derived differently is a different key, an AEAD
    opens exactly what was sealed under the same key and associated data, and Diffie-Hellman commutes.
    Randomness is never drawn here; new scalars arrive as parameters. */
module SymbolicCrypto {
  import opened Bytes
  import opened Wrappers

  /** X25519: a public key stands for its scalar. */
  datatype Secret = Secret(scalar: nat)

  datatype Public = Public(scalar: nat)

  function PublicOf(secret: Secret): Public {
    Public(secret.scalar)
  }

  datatype DhOutput = DhOutput(low: nat, high: nat)

  function Dh(own: Secret, remote: Public): DhOutput {
    if own.scalar <= remote.scalar then DhOutput(own.scalar, remote.scalar)
    else DhOutput(remote.scalar, own.scalar)
  }

  /** What a session is seeded with: a Noise handshake hash, an X3DH secret, or the hybrid of an X3DH
      secret with an ML-KEM one. */
  datatype SharedSecret =
    | NoiseSecret(id: nat)
    | X3dhSecret(dh1: DhOutput, dh2: DhOutput, dh3: DhOutput, dh4: Option<DhOutput>)
    | HybridSecret(classical: SharedSecret, pq: seq<byte>)

  datatype RootKey = Seed(secret: SharedSecret) | NextRoot(prev: RootKey, dh: DhOutput)

  datatype ChainKey = ChainStart(root: RootKey, dh: DhOutput) | NextChain(prev: ChainKey)

  datatype MessageKey = MessageKey(chain: ChainKey)

  function KdfRk(root: RootKey, dh: DhOutput): (RootKey, ChainKey) {
    (NextRoot(root, dh), ChainStart(root, dh))
  }

  function KdfCk(chain: ChainKey): (ChainKey, MessageKey) {
    (NextChain(chain), MessageKey(chain))
  }

  /** A ciphertext is what `AeadSeal` made, or bytes nobody sealed. */
  datatype Ciphertext<+A> = Sealed(key: MessageKey, ad: A, padded: seq<byte>) | Junk(bytes: seq<byte>)

  function AeadOpen<A(==)>(key: MessageKey, ad: A, ct: Ciphertext<A>): Result<seq<byte>> {
    if ct.Sealed? && ct.key == key && ct.ad == ad then Success(ct.padded) else Failure(OpenFailed)
  }

  /** How many root steps lie behind a root key. */
  ghost function RootDepth(root: RootKey): nat {
    match root
    case Seed(_) => 0
    case NextRoot(prev, _) => 1 + RootDepth(prev)
  }

  /** The root a chain was split from, and how far along the chain a key is. */
  ghost function Origin(chain: ChainKey): ChainKey {
    match chain
    case ChainStart(_, _) => chain
    case NextChain(prev) => Origin(prev)
  }

  ghost function Steps(chain: ChainKey): nat {
    match chain
    case ChainStart(_, _) => 0
    case NextChain(prev) => 1 + Steps(prev)
  }

  ghost function Advance(chain: ChainKey, n: nat): ChainKey {
    if n == 0 then chain else NextChain(Advance(chain, n - 1))
  }

  lemma {:induction false} AdvanceShape(chain: ChainKey, n: nat)
    ensures Origin(Advance(chain, n)) == Origin(chain) && Steps(Advance(chain, n)) == Steps(chain) + n
  {
    if n == 0 {
    } else {
      AdvanceShape(chain, n - 1);
    }
  }

  lemma {:induction false} AdvanceNext(chain: ChainKey, n: nat)
    ensures Advance(NextChain(chain), n) == Advance(chain, n + 1)
  {
    if n == 0 {
    } else {
      AdvanceNext(chain, n - 1);
    }
  }

  lemma {:induction false} AdvanceAdd(chain: ChainKey, m: nat, n: nat)
    ensures Advance(Advance(chain, m), n) == Advance(chain, m + n)
  {
    if n == 0 {
    } else {
      AdvanceAdd(chain, m, n - 1);
    }
  }
}
