/**
 * The public-key authenticated-encryption primitive ("box") that the worker
 * calls: key derivation, seal and open. It is not modelled: a `Primitive`
 * is any triple of functions, and `Sound` is what the worker and the client
 * rely on (open undoes seal for matching key pairs, and the fixed tag
 * overhead). Randomness is not part of it: the secret key that key
 * generation draws is supplied from outside.
 */
module Crypto {
  import opened Wire

  /** The authentication tag that seal adds. */
  const MacBytes: nat := 16

  type SecretKey = s: seq<byte> | |s| == SecretKeyBytes witness seq(SecretKeyBytes, _ => 0)

  datatype Primitive = Primitive(
    publicKey: SecretKey -> PublicKey,
    seal: (seq<byte>, Nonce, PublicKey, SecretKey) -> Vec,
    open: (seq<byte>, Nonce, PublicKey, SecretKey) -> Option<Vec>)

  /**
   * What the callers assume of the primitive: the ciphertext is the plaintext
   * plus the tag, and whoever holds the recipient's secret key and the
   * sender's public key opens what the sender sealed to the recipient.
   */
  ghost predicate Sound(p: Primitive)
  {
    && (forall m: seq<byte>, n: Nonce, pk: PublicKey, sk: SecretKey | |m| + MacBytes <= MaxVecLen ::
          |p.seal(m, n, pk, sk)| == |m| + MacBytes)
    && (forall m: seq<byte>, n: Nonce, skA: SecretKey, skB: SecretKey | |m| + MacBytes <= MaxVecLen ::
          p.open(p.seal(m, n, p.publicKey(skB), skA), n, p.publicKey(skA), skB) == Some(m))
    && (forall c: seq<byte>, n: Nonce, pk: PublicKey, sk: SecretKey | p.open(c, n, pk, sk).Some? ::
          |p.open(c, n, pk, sk).value| + MacBytes == |c|)
  }

  // A deliberately insecure instance, only to show that `Sound` can be met.

  function ToyTag(a: PublicKey, b: PublicKey): (t: seq<byte>)
    ensures |t| == MacBytes
  {
    seq(MacBytes, i requires 0 <= i < MacBytes => (a[i] as int + b[i] as int) % 256)
  }

  function Toy(): Primitive
  {
    Primitive(
      sk => sk,
      (m, n, pk, sk) => if |m| + MacBytes <= MaxVecLen then m + ToyTag(pk, sk) else [],
      (c, n, pk, sk) =>
        if MacBytes <= |c| <= MaxVecLen && c[|c| - MacBytes..] == ToyTag(pk, sk) then Some(c[..|c| - MacBytes]) else None)
  }

  lemma ToyTagSymmetric(a: PublicKey, b: PublicKey)
    ensures ToyTag(a, b) == ToyTag(b, a)
  {
    assert forall i | 0 <= i < MacBytes :: ToyTag(a, b)[i] == ToyTag(b, a)[i];
  }

  lemma SoundIsSatisfiable()
    ensures exists p :: Sound(p)
  {
    var p := Toy();
    forall m: seq<byte>, n: Nonce, skA: SecretKey, skB: SecretKey | |m| + MacBytes <= MaxVecLen
      ensures p.open(p.seal(m, n, p.publicKey(skB), skA), n, p.publicKey(skA), skB) == Some(m)
    {
      ToyTagSymmetric(skB, skA);
      var c := m + ToyTag(skB, skA);
      assert c[..|c| - MacBytes] == m;
    }
    assert Sound(p);
  }
}
