/** The Hello message of internal/handshake/handshake.go. */
module Handshake {
  import opened Wrappers
  import opened Bytes

  datatype Hello = Hello(role: bytes, name: bytes, secret: bytes, targetDaemon: bytes)

  datatype Error = TooLongForU8 | TooLongForU16 | HelloMalformed

  ghost predicate Fits(h: Hello) {
    |h.role| < 0x100 && |h.name| < 0x100 && |h.secret| < 0x1_0000 && |h.targetDaemon| < 0x100
  }

  // A string behind its length in one byte, or in two.
  function Str8(s: bytes): bytes
    requires |s| < 0x100
  {
    [|s|] + s
  }

  function Str16(s: bytes): bytes
    requires |s| < 0x1_0000
  {
    PutUint16(|s|) + s
  }

  function Layout(h: Hello): bytes
    requires Fits(h)
  {
    Str8(h.role) + Str8(h.name) + Str16(h.secret) + Str8(h.targetDaemon)
  }

  function Encoded(h: Hello): Result<bytes, Error> {
    if |h.role| >= 0x100 || |h.name| >= 0x100 || |h.targetDaemon| >= 0x100 then Err(TooLongForU8)
    else if |h.secret| >= 0x1_0000 then Err(TooLongForU16)
    else Ok(Layout(h))
  }

  method Encode(h: Hello) returns (r: Result<bytes, Error>)
    ensures r == Encoded(h)
    ensures r.Ok? <==> |h.role| <= 255 && |h.name| <= 255 && |h.targetDaemon| <= 255 && |h.secret| <= 65535
    ensures r.Err? ==> (r.error == TooLongForU8 <==> |h.role| > 255 || |h.name| > 255 || |h.targetDaemon| > 255)
  {
    if |h.role| >= 0x100 || |h.name| >= 0x100 || |h.targetDaemon| >= 0x100 {
      return Err(TooLongForU8);
    }
    if |h.secret| >= 0x1_0000 {
      return Err(TooLongForU16);
    }
    var buf: bytes := [];
    buf := buf + [|h.role|];
    buf := buf + h.role;
    buf := buf + [|h.name|];
    buf := buf + h.name;
    var sl := PutUint16(|h.secret|);
    buf := buf + sl;
    buf := buf + h.secret;
    buf := buf + [|h.targetDaemon|];
    buf := buf + h.targetDaemon;
    assert buf == Layout(h);
    return Ok(buf);
  }

  // Splits a length-prefixed string off the front of b.
  function Take8(b: bytes): Option<(bytes, bytes)> {
    if |b| == 0 then None
    else
      var n: int := b[0];
      if |b| < 1 + n then None else Some((b[1..1 + n], b[1 + n..]))
  }

  function Take16(b: bytes): Option<(bytes, bytes)> {
    if |b| < 2 then None
    else
      var n := Uint16(b[..2]);
      if |b| < 2 + n then None else Some((b[2..2 + n], b[2 + n..]))
  }

  function Decoded(b: bytes): Result<Hello, Error> {
    match Take8(b)
    case None => Err(HelloMalformed)
    case Some((role, b1)) =>
      match Take8(b1)
      case None => Err(HelloMalformed)
      case Some((name, b2)) =>
        match Take16(b2)
        case None => Err(HelloMalformed)
        case Some((secret, b3)) =>
          match Take8(b3)
          case None => Err(HelloMalformed)
          case Some((target, _)) => Ok(Hello(role, name, secret, target))
  }

  // The closure read1: a string at offset off, and the offset behind it.
  method Read1(b: bytes, off: nat) returns (s: Option<bytes>, next: nat)
    requires off <= |b|
    ensures next <= |b|
    ensures match Take8(b[off..])
            case None => s == None
            case Some((str, rest)) => s == Some(str) && b[next..] == rest
  {
    next := off;
    if next >= |b| {
      return None, next;
    }
    var n: int := b[next];
    next := next + 1;
    if next + n > |b| {
      return None, next;
    }
    s := Some(b[next..next + n]);
    SliceOfSuffix(b, off, 1, 1 + n);
    next := next + n;
  }

  // The secret, with its length in two bytes.
  method Read2(b: bytes, off: nat) returns (s: Option<bytes>, next: nat)
    requires off <= |b|
    ensures next <= |b|
    ensures match Take16(b[off..])
            case None => s == None
            case Some((str, rest)) => s == Some(str) && b[next..] == rest
  {
    next := off;
    if next + 2 > |b| {
      return None, next;
    }
    SliceOfSuffix(b, off, 0, 2);
    assert b[off..][0..2] == b[off..][..2];
    var sl := Uint16(b[next..next + 2]);
    next := next + 2;
    if next + sl > |b| {
      return None, next;
    }
    s := Some(b[next..next + sl]);
    SliceOfSuffix(b, off, 2, 2 + sl);
    next := next + sl;
  }

  method DecodeHello(b: bytes) returns (r: Result<Hello, Error>)
    ensures r == Decoded(b)
  {
    var off := 0;
    var role, name, secret, target;
    assert b[0..] == b;
    role, off := Read1(b, off);
    if role.None? {
      return Err(HelloMalformed);
    }
    name, off := Read1(b, off);
    if name.None? {
      return Err(HelloMalformed);
    }
    secret, off := Read2(b, off);
    if secret.None? {
      return Err(HelloMalformed);
    }
    target, off := Read1(b, off);
    if target.None? {
      return Err(HelloMalformed);
    }
    return Ok(Hello(role.value, name.value, secret.value, target.value));
  }

  lemma Take8Exactly(b: bytes, s: bytes, rest: bytes)
    ensures Take8(b) == Some((s, rest)) <==> |s| < 0x100 && b == Str8(s) + rest
  {
    if Take8(b) == Some((s, rest)) {
      assert b == [b[0]] + b[1..1 + |s|] + b[1 + |s|..];
    }
  }

  lemma Take16Exactly(b: bytes, s: bytes, rest: bytes)
    ensures Take16(b) == Some((s, rest)) <==> |s| < 0x1_0000 && b == Str16(s) + rest
  {
    if Take16(b) == Some((s, rest)) {
      Uint16Canonical(b[..2]);
      assert b == b[..2] + b[2..2 + |s|] + b[2 + |s|..];
    }
    if |s| < 0x1_0000 && b == Str16(s) + rest {
      assert b == PutUint16(|s|) + s + rest;
      Segment(PutUint16(|s|), s, rest);
    }
  }

  lemma FourSegments(a: bytes, b: bytes, c: bytes, d: bytes, rest: bytes)
    ensures a + (b + (c + (d + rest))) == (a + b + c + d) + rest
  {
  }

  lemma FourParts(a: bytes, b: bytes, c: bytes, d: bytes)
    ensures var all, i, j, k := a + b + c + d, |a|, |a| + |b|, |a| + |b| + |c|;
      |all| == k + |d| && all[..i] == a && all[i..j] == b && all[j..k] == c && all[k..] == d
  {
  }

  /** Where the fields of an encoded Hello sit: role, name, secret and target, each behind its length. */
  lemma LayoutFields(h: Hello)
    requires Fits(h)
    ensures var b, i, j, k := Layout(h), 1 + |h.role|, 2 + |h.role| + |h.name|, 4 + |h.role| + |h.name| + |h.secret|;
      && |b| == k + 1 + |h.targetDaemon|
      && b[..i] == [|h.role|] + h.role && b[i..j] == [|h.name|] + h.name
      && b[j..k] == [|h.secret| / 256, |h.secret| % 256] + h.secret && b[k..] == [|h.targetDaemon|] + h.targetDaemon
  {
    FourParts(Str8(h.role), Str8(h.name), Str16(h.secret), Str8(h.targetDaemon));
  }

  lemma DecodesLayout(h: Hello, suffix: bytes)
    requires Fits(h)
    ensures Decoded(Layout(h) + suffix) == Ok(h)
  {
    var b3 := Str8(h.targetDaemon) + suffix;
    var b2 := Str16(h.secret) + b3;
    var b1 := Str8(h.name) + b2;
    FourSegments(Str8(h.role), Str8(h.name), Str16(h.secret), Str8(h.targetDaemon), suffix);
    Take8Exactly(Layout(h) + suffix, h.role, b1);
    Take8Exactly(b1, h.name, b2);
    Take16Exactly(b2, h.secret, b3);
    Take8Exactly(b3, h.targetDaemon, suffix);
  }

  lemma AcceptedIsLayout(b: bytes)
    requires Decoded(b).Ok?
    ensures Fits(Decoded(b).value) && Layout(Decoded(b).value) <= b
  {
    var h := Decoded(b).value;
    var b1 := Take8(b).value.1;
    var b2 := Take8(b1).value.1;
    var b3 := Take16(b2).value.1;
    var b4 := Take8(b3).value.1;
    Take8Exactly(b, h.role, b1);
    Take8Exactly(b1, h.name, b2);
    Take16Exactly(b2, h.secret, b3);
    Take8Exactly(b3, h.targetDaemon, b4);
    FourSegments(Str8(h.role), Str8(h.name), Str16(h.secret), Str8(h.targetDaemon), b4);
  }

  /** DecodeHello accepts b as h exactly when b starts with the encoding of h. */
  lemma DecodesExactly(b: bytes, h: Hello)
    ensures Decoded(b) == Ok(h) <==> Fits(h) && Layout(h) <= b
  {
    if Decoded(b) == Ok(h) {
      AcceptedIsLayout(b);
    }
    if Fits(h) && Layout(h) <= b {
      assert b == Layout(h) + b[|Layout(h)|..];
      DecodesLayout(h, b[|Layout(h)|..]);
    }
  }

  /** Whatever Encode accepts comes back, and no strict prefix of it is accepted as anything. */
  lemma RoundTrip(h: Hello, suffix: bytes, n: nat)
    requires Encoded(h).Ok? && n < |Encoded(h).value|
    ensures Decoded(Encoded(h).value + suffix) == Ok(h)
    ensures Decoded(Encoded(h).value[..n]) == Err(HelloMalformed)
  {
    DecodesLayout(h, suffix);
    var short := Layout(h)[..n];
    if Decoded(short).Ok? {
      AcceptedIsLayout(short);
      var g := Decoded(short).value;
      DecodesExactly(Layout(h), g);
      DecodesExactly(Layout(h), h);
    }
  }
}
