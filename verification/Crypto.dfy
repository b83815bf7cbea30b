/** The primitives the channel is built on, as parameters: an authenticated cipher with explicit
    key and nonce, and a MAC. What is assumed of them is the predicate Ideal, and nothing else. */
module Crypto {
  import opened Wrappers
  import opened Bytes

  // A symmetric key, named by the handshake that produced it.
  type Key = nat

  const MAC_SIZE := 32
  const TAG_SIZE := 16

  datatype Suite = Suite(
    seal: (Key, nat, bytes, bytes) -> bytes,
    unseal: (Key, nat, bytes, bytes) -> Option<bytes>,
    mac: (bytes, bytes) -> bytes)
  {
    // Unsealing inverts sealing and accepts nothing else; a ciphertext determines the key and
    // the nonce it was made with.
    ghost predicate IdealAead() {
      && (forall k, n, ad, p :: unseal(k, n, ad, seal(k, n, ad, p)) == Some(p))
      && (forall k, n, ad, ct :: unseal(k, n, ad, ct).Some? ==> ct == seal(k, n, ad, unseal(k, n, ad, ct).value))
      && (forall k, n, ad, p, k', n', ad', p' ::
            seal(k, n, ad, p) == seal(k', n', ad', p') ==> k == k' && n == n')
    }

    ghost predicate FixedMac() {
      forall key, m :: |mac(key, m)| == MAC_SIZE
    }

    ghost predicate Ideal() {
      IdealAead() && FixedMac()
    }

    // A ciphertext has room for the authentication tag. Not exactly that much room: then only finitely
    // many keys and nonces could be told apart.
    ghost predicate Expands() {
      forall k, n, ad, p :: |seal(k, n, ad, p)| >= |p| + TAG_SIZE
    }
  }

  // n ones and a zero.
  function Unary(n: nat): (u: bytes)
    ensures |u| == n + 1 && u[n] == 0 && forall i :: 0 <= i < n ==> u[i] == 1
  {
    seq(n, i => 1) + [0]
  }

  lemma UnaryPrefixFree(m: nat, s: bytes, n: nat, t: bytes)
    requires Unary(m) + s == Unary(n) + t
    ensures m == n && s == t
  {
    var w := Unary(m) + s;
    assert w[m] == 0 && w[n] == 0;
    assert forall i :: 0 <= i < m ==> w[i] == Unary(m)[i];
    assert forall i :: 0 <= i < n ==> w[i] == Unary(n)[i];
    assert s == w[m + 1..];
  }

  function Padding(): (u: bytes)
    ensures |u| == TAG_SIZE
  {
    seq(TAG_SIZE, i => 0)
  }

  function ExampleSeal(k: Key, n: nat, ad: bytes, p: bytes): bytes {
    Unary(k) + (Unary(n) + (Unary(|ad|) + (Padding() + (ad + p))))
  }

  function ExampleUnseal(k: Key, n: nat, ad: bytes, ct: bytes): Option<bytes> {
    var header := ExampleSeal(k, n, ad, []);
    if header <= ct then Some(ct[|header|..]) else None
  }

  lemma ExampleSealIsHeaderFirst(k: Key, n: nat, ad: bytes, p: bytes)
    ensures ExampleSeal(k, n, ad, p) == ExampleSeal(k, n, ad, []) + p
  {
  }

  /** The assumptions are consistent: some suite satisfies them all. */
  lemma IdealSuiteExists()
    ensures exists c: Suite :: c.Ideal() && c.Expands()
  {
    var c := Suite((k, n, ad, p) => ExampleSeal(k, n, ad, p),
                   (k, n, ad, ct) => ExampleUnseal(k, n, ad, ct),
                   (key, m) => seq(MAC_SIZE, i => 0));
    forall k, n, ad, p
      ensures c.unseal(k, n, ad, c.seal(k, n, ad, p)) == Some(p)
    {
      ExampleSealIsHeaderFirst(k, n, ad, p);
    }
    forall k, n, ad, ct | c.unseal(k, n, ad, ct).Some?
      ensures ct == c.seal(k, n, ad, c.unseal(k, n, ad, ct).value)
    {
      ExampleSealIsHeaderFirst(k, n, ad, c.unseal(k, n, ad, ct).value);
    }
    forall k, n, ad, p, k', n', ad', p' | c.seal(k, n, ad, p) == c.seal(k', n', ad', p')
      ensures k == k' && n == n'
    {
      var s, s' := Unary(|ad|) + (Padding() + (ad + p)), Unary(|ad'|) + (Padding() + (ad' + p'));
      UnaryPrefixFree(k, Unary(n) + s, k', Unary(n') + s');
      UnaryPrefixFree(n, s, n', s');
    }
    assert c.Ideal() && c.Expands();
  }
}
