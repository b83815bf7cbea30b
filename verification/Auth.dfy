/** Frame signing of internal/auth/hmac.go. */
module Auth {
  import opened Wrappers
  import opened Bytes
  import opened Crypto

  datatype Error = ShortMAC | BadMAC

  function Signed(c: Suite, key: bytes, frame: bytes): bytes {
    frame + c.mac(key, frame)
  }

  method SignFrame(c: Suite, key: bytes, frame: bytes) returns (out: bytes)
    ensures out == Signed(c, key, frame) == frame + c.mac(key, frame)
  {
    var mac := c.mac(key, frame);
    out := [];
    out := out + frame;
    out := out + mac;
  }

  function Verified(c: Suite, key: bytes, signed: bytes): Result<bytes, Error> {
    if |signed| < MAC_SIZE then Err(ShortMAC)
    else
      var cut := |signed| - MAC_SIZE;
      if signed[cut..] != c.mac(key, signed[..cut]) then Err(BadMAC) else Ok(signed[..cut])
  }

  /** Verification under a key succeeds with exactly the frame that signing under that key appended
      the tag to. */
  lemma VerifiesExactly(c: Suite, key: bytes, signed: bytes, frame: bytes)
    requires c.FixedMac()
    ensures Verified(c, key, signed) == Ok(frame) <==> signed == Signed(c, key, frame)
  {
    if Verified(c, key, signed) == Ok(frame) {
      assert signed == signed[..|frame|] + signed[|frame|..];
    }
    if signed == Signed(c, key, frame) {
      assert |c.mac(key, frame)| == MAC_SIZE;
      assert signed[..|frame|] == frame && signed[|frame|..] == c.mac(key, frame);
    }
  }
}
