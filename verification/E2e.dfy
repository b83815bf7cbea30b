/** The cipher states of internal/e2e/session.go. Each direction is a CipherState as section 5.1 of
    the Noise Protocol Framework (revision 34) defines it: the nonce is implicit, advances on
    success only, and its last value is reserved. */
module E2e {
  import opened Wrappers
  import opened Bytes
  import opened Crypto

  const MAX_NONCE := 0xFFFF_FFFF_FFFF_FFFE

  datatype Error = NonceExhausted | DecryptFailed

  datatype CipherState = CipherState(key: Key, n: nat)

  function Sealed(c: Suite, cs: CipherState, ad: bytes, plaintext: bytes): Result<bytes, Error> {
    if cs.n > MAX_NONCE then Err(NonceExhausted) else Ok(c.seal(cs.key, cs.n, ad, plaintext))
  }

  function Opened(c: Suite, cs: CipherState, ad: bytes, ciphertext: bytes): Result<bytes, Error> {
    if cs.n > MAX_NONCE then Err(NonceExhausted)
    else match c.unseal(cs.key, cs.n, ad, ciphertext)
         case None => Err(DecryptFailed)
         case Some(p) => Ok(p)
  }

  // The state after an operation with result r.
  function After<T>(cs: CipherState, r: Result<T, Error>): CipherState {
    if r.Ok? then cs.(n := cs.n + 1) else cs
  }

  class Session {
    const suite: Suite
    var send: CipherState
    var recv: CipherState

    constructor (suite: Suite, send: CipherState, recv: CipherState)
      ensures this.suite == suite && this.send == send && this.recv == recv
    {
      this.suite, this.send, this.recv := suite, send, recv;
    }

    method Encrypt(ad: bytes, plaintext: bytes) returns (r: Result<bytes, Error>)
      modifies this`send
      ensures r == Sealed(suite, old(send), ad, plaintext)
      ensures send == After(old(send), r)
      ensures r == if old(send.n) < 0xFFFF_FFFF_FFFF_FFFF then Ok(suite.seal(old(send.key), old(send.n), ad, plaintext))
                   else Err(NonceExhausted)
      ensures send.key == old(send.key) && send.n == old(send.n) + if r.Ok? then 1 else 0
    {
      if send.n > MAX_NONCE {
        return Err(NonceExhausted);
      }
      var ct := suite.seal(send.key, send.n, ad, plaintext);
      send := send.(n := send.n + 1);
      return Ok(ct);
    }

    method Decrypt(ad: bytes, ciphertext: bytes) returns (r: Result<bytes, Error>)
      modifies this`recv
      ensures r == Opened(suite, old(recv), ad, ciphertext)
      ensures recv == After(old(recv), r)
      ensures r.Ok? <==> old(recv.n) < 0xFFFF_FFFF_FFFF_FFFF && suite.unseal(old(recv.key), old(recv.n), ad, ciphertext).Some?
      ensures r.Ok? ==> suite.unseal(old(recv.key), old(recv.n), ad, ciphertext) == Some(r.value)
      ensures r.Err? ==> (r.error == NonceExhausted <==> old(recv.n) >= 0xFFFF_FFFF_FFFF_FFFF)
      ensures recv.key == old(recv.key) && recv.n == old(recv.n) + if r.Ok? then 1 else 0
    {
      if recv.n > MAX_NONCE {
        return Err(NonceExhausted);
      }
      var p := suite.unseal(recv.key, recv.n, ad, ciphertext);
      if p.None? {
        return Err(DecryptFailed);
      }
      recv := recv.(n := recv.n + 1);
      return Ok(p.value);
    }
  }

  /** Under an ideal cipher a receiving state opens precisely what a sending state with the same key
      and the same counter sealed; anything made under another key or at another counter is
      rejected and moves nothing. */
  lemma OpensOnlyInStep(c: Suite, tx: CipherState, rx: CipherState, ad: bytes, p: bytes)
    requires c.IdealAead() && tx.n <= MAX_NONCE
    ensures var r := Opened(c, rx, ad, Sealed(c, tx, ad, p).value);
      && (rx == tx ==> r == Ok(p) && After(rx, r) == After(tx, Sealed(c, tx, ad, p)))
      && (rx != tx ==> r.Err? && After(rx, r) == rx)
  {
  }
}
