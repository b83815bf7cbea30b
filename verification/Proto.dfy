/** The frame envelope of internal/proto/frame.go: Encode, Decode and what ties them together. */
module Proto {
  import opened Wrappers
  import opened Bytes

  const PROTOCOL_VERSION: byte := 1
  const MAX_REQ_ID_LEN := 0x1_0000
  const MAX_PAYLOAD_LEN := 0x400_0000
  const TYPE_ROUTE: byte := 12

  datatype Frame = Frame(ftype: byte, reqID: bytes, payload: bytes)

  datatype Error = ReqIDTooLong | PayloadTooLong | ShortFrame | VersionMismatch

  // The frames the two length fields can describe.
  ghost predicate Fits(f: Frame) {
    |f.reqID| < MAX_REQ_ID_LEN && |f.payload| <= MAX_PAYLOAD_LEN
  }

  // version:1 | type:1 | reqid_len:2 | reqid | payload_len:4 | payload. The length of the
  // ReqID is cut down to 16 bits, as the conversion in Encode does.
  function Layout(f: Frame): (b: bytes)
    requires |f.payload| <= MAX_PAYLOAD_LEN
    ensures |b| == 8 + |f.reqID| + |f.payload|
  {
    [PROTOCOL_VERSION, f.ftype] + PutUint16(|f.reqID| % 0x1_0000) + f.reqID
    + PutUint32(|f.payload|) + f.payload
  }

  function Encoded(f: Frame): Result<bytes, Error> {
    if |f.reqID| > MAX_REQ_ID_LEN then Err(ReqIDTooLong)
    else if |f.payload| > MAX_PAYLOAD_LEN then Err(PayloadTooLong)
    else Ok(Layout(f))
  }

  method Encode(f: Frame) returns (r: Result<bytes, Error>)
    ensures r == Encoded(f)
    ensures r.Ok? <==> |f.reqID| <= 65536 && |f.payload| <= 64 * 1024 * 1024
    ensures r.Err? ==> r.error == if |f.reqID| > 65536 then ReqIDTooLong else PayloadTooLong
  {
    if |f.reqID| > MAX_REQ_ID_LEN {
      return Err(ReqIDTooLong);
    }
    if |f.payload| > MAX_PAYLOAD_LEN {
      return Err(PayloadTooLong);
    }
    var buf: bytes := [];
    buf := buf + [PROTOCOL_VERSION, f.ftype];
    var rid := PutUint16(|f.reqID| % 0x1_0000);
    buf := buf + rid;
    buf := buf + f.reqID;
    var pl := PutUint32(|f.payload|);
    buf := buf + pl;
    buf := buf + f.payload;
    assert buf == Layout(f);
    return Ok(buf);
  }

  function Decoded(b: bytes): Result<Frame, Error> {
    if |b| < 2 then Err(ShortFrame)
    else if b[0] != PROTOCOL_VERSION then Err(VersionMismatch)
    else if |b| < 4 then Err(ShortFrame)
    else
      var off := 4 + Uint16(b[2..4]);
      if |b| < off + 4 then Err(ShortFrame)
      else
        var plLen := Uint32(b[off..off + 4]);
        if plLen > MAX_PAYLOAD_LEN then Err(PayloadTooLong)
        else if |b| < off + 4 + plLen then Err(ShortFrame)
        else Ok(Frame(b[1], b[4..off], b[off + 4..off + 4 + plLen]))
  }

  method Decode(b: bytes) returns (r: Result<Frame, Error>)
    ensures r == Decoded(b)
    ensures r == Err(VersionMismatch) <==> |b| >= 2 && b[0] != 1
    ensures r == Err(PayloadTooLong) ==> |b| >= 8 && b[0] == 1
  {
    if |b| < 2 {
      return Err(ShortFrame);
    }
    if b[0] != PROTOCOL_VERSION {
      return Err(VersionMismatch);
    }
    var f := Frame(b[1], [], []);
    var off := 2;
    if |b| < off + 2 {
      return Err(ShortFrame);
    }
    var ridLen := Uint16(b[off..off + 2]);
    off := off + 2;
    if |b| < off + ridLen {
      return Err(ShortFrame);
    }
    f := f.(reqID := b[off..off + ridLen]);
    off := off + ridLen;
    if |b| < off + 4 {
      return Err(ShortFrame);
    }
    var plLen := Uint32(b[off..off + 4]);
    off := off + 4;
    if plLen > MAX_PAYLOAD_LEN {
      return Err(PayloadTooLong);
    }
    if |b| < off + plLen {
      return Err(ShortFrame);
    }
    f := f.(payload := b[off..off + plLen]);
    return Ok(f);
  }

  // Where the fields of an encoded frame sit, whatever follows it.
  lemma LayoutFields(f: Frame, suffix: bytes)
    requires |f.payload| <= MAX_PAYLOAD_LEN
    ensures var b, off := Layout(f) + suffix, 4 + |f.reqID|;
      && b[0] == PROTOCOL_VERSION && b[1] == f.ftype
      && b[2..4] == PutUint16(|f.reqID| % 0x1_0000)
      && b[4..off] == f.reqID
      && b[off..off + 4] == PutUint32(|f.payload|)
      && b[off + 4..off + 4 + |f.payload|] == f.payload
  {
    var b, off := Layout(f) + suffix, 4 + |f.reqID|;
    var head, rid, pl := [PROTOCOL_VERSION, f.ftype], PutUint16(|f.reqID| % 0x1_0000), PutUint32(|f.payload|);
    assert b == head + rid + (f.reqID + pl + f.payload + suffix);
    Segment(head, rid, f.reqID + pl + f.payload + suffix);
    assert b == (head + rid) + f.reqID + (pl + f.payload + suffix);
    Segment(head + rid, f.reqID, pl + f.payload + suffix);
    assert b == (head + rid + f.reqID) + pl + (f.payload + suffix);
    Segment(head + rid + f.reqID, pl, f.payload + suffix);
    assert b == (head + rid + f.reqID + pl) + f.payload + suffix;
    Segment(head + rid + f.reqID + pl, f.payload, suffix);
  }

  lemma DecodesLayout(f: Frame, suffix: bytes)
    requires Fits(f)
    ensures Decoded(Layout(f) + suffix) == Ok(f)
  {
    LayoutFields(f, suffix);
  }

  lemma AcceptedIsLayout(b: bytes)
    requires Decoded(b).Ok?
    ensures Fits(Decoded(b).value) && Layout(Decoded(b).value) <= b
  {
    var f := Decoded(b).value;
    var off := 4 + Uint16(b[2..4]);
    var end := off + 4 + |f.payload|;
    Uint16Canonical(b[2..4]);
    Uint32Canonical(b[off..off + 4]);
    FiveSegments(b, 2, 4, off, off + 4, end);
    assert b[..2] == [PROTOCOL_VERSION, f.ftype];
  }

  /** Decode accepts b as f exactly when b starts with the encoding of f, a frame whose fields fit. */
  lemma DecodesExactly(b: bytes, f: Frame)
    ensures Decoded(b) == Ok(f) <==> Fits(f) && Layout(f) <= b
  {
    if Decoded(b) == Ok(f) {
      AcceptedIsLayout(b);
    }
    if Fits(f) && Layout(f) <= b {
      assert b == Layout(f) + b[|Layout(f)|..];
      DecodesLayout(f, b[|Layout(f)|..]);
    }
  }

  /** A frame that Encode accepts comes back, whatever follows it on the wire, if and only if its
      ReqID is shorter than 2^16 bytes: at exactly 2^16 Encode lets it through with length 0. */
  lemma RoundTrip(f: Frame, suffix: bytes)
    requires Encoded(f).Ok?
    ensures Decoded(Encoded(f).value + suffix) == Ok(f) <==> |f.reqID| < 65536
  {
    if |f.reqID| < MAX_REQ_ID_LEN {
      DecodesLayout(f, suffix);
    } else {
      DecodesExactly(Layout(f) + suffix, f);
    }
  }

  /** Every strict prefix of an encoded frame is rejected as truncated, not as anything else. */
  lemma StrictPrefixIsShort(f: Frame, n: nat)
    requires Fits(f) && n < |Layout(f)|
    ensures Decoded(Layout(f)[..n]) == Err(ShortFrame)
  {
    LayoutFields(f, []);
    var b, off := Layout(f), 4 + |f.reqID|;
    assert b + [] == b;
    if 4 <= n {
      assert b[..n][2..4] == b[2..4];
    }
    if off + 4 <= n {
      assert b[..n][off..off + 4] == b[off..off + 4];
    }
  }

  /** No encoding is the beginning of another: the stream splits into frames in one way. */
  lemma PrefixFree(f: Frame, s: bytes, g: Frame, t: bytes)
    requires Fits(f) && Fits(g) && Layout(f) + s == Layout(g) + t
    ensures f == g && s == t
  {
    DecodesLayout(f, s);
    DecodesLayout(g, t);
    assert s == (Layout(f) + s)[|Layout(f)|..];
  }
}
