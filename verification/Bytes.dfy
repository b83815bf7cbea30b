/** Byte strings and the big-endian integers of the wire formats. */
module Bytes {
  type byte = x: int | 0 <= x < 256

  type bytes = seq<byte>

  function PutUint16(n: int): (r: bytes)
    requires 0 <= n < 0x1_0000
    ensures |r| == 2 && Uint16(r) == n
  {
    [n / 256, n % 256]
  }

  function Uint16(b: bytes): (n: int)
    requires |b| == 2
    ensures 0 <= n < 0x1_0000
    ensures n / 256 == b[0] && n % 256 == b[1]
  {
    b[0] as int * 256 + b[1]
  }

  function PutUint32(n: int): (r: bytes)
    requires 0 <= n < 0x1_0000_0000
    ensures |r| == 4 && Uint32(r) == n
  {
    PutUint16(n / 0x1_0000) + PutUint16(n % 0x1_0000)
  }

  function Uint32(b: bytes): (n: int)
    requires |b| == 4
    ensures 0 <= n < 0x1_0000_0000
    ensures n / 0x1_0000 == Uint16(b[..2]) && n % 0x1_0000 == Uint16(b[2..])
  {
    Uint16(b[..2]) * 0x1_0000 + Uint16(b[2..])
  }

  // Reading an integer and writing it back gives the same bytes.
  lemma Uint16Canonical(b: bytes)
    requires |b| == 2
    ensures PutUint16(Uint16(b)) == b
  {
  }

  lemma Uint32Canonical(b: bytes)
    requires |b| == 4
    ensures PutUint32(Uint32(b)) == b
  {
    Uint16Canonical(b[..2]);
    Uint16Canonical(b[2..]);
    assert b == b[..2] + b[2..];
  }

  // The middle of three concatenated segments, found by its offset.
  lemma Segment(a: bytes, m: bytes, z: bytes)
    ensures |a + m + z| == |a| + |m| + |z|
    ensures (a + m + z)[..|a|] == a
    ensures (a + m + z)[|a|..|a| + |m|] == m
    ensures (a + m + z)[|a| + |m|..] == z
  {
  }

  // Slices of a slice, and of a suffix, are slices.
  lemma SliceOfSlice(s: bytes, low: nat, high: nat, i: nat, j: nat)
    requires low <= high <= |s| && i <= j <= high - low
    ensures s[low..high][i..j] == s[low + i..low + j]
  {
    var a, b := s[low..high][i..j], s[low + i..low + j];
    forall k | 0 <= k < j - i
      ensures a[k] == b[k]
    {
      assert a[k] == s[low..high][i + k];
    }
    assert a == b;
  }

  lemma SliceOfSuffix(s: bytes, off: nat, i: nat, j: nat)
    requires off <= |s| && i <= j <= |s| - off
    ensures s[off..][i..j] == s[off + i..off + j]
    ensures s[off..][j..] == s[off + j..]
  {
    SliceOfSlice(s, off, |s|, i, j);
    SliceOfSlice(s, off, |s|, j, |s| - off);
    assert s[off..|s|] == s[off..];
    assert s[off..][j..|s| - off] == s[off..][j..];
    assert s[off + j..off + (|s| - off)] == s[off + j..];
  }

  lemma Adjacent(b: bytes, i: nat, j: nat)
    requires i <= j <= |b|
    ensures b[..i] + b[i..j] == b[..j]
  {
  }

  // A prefix cut at four places is the concatenation of its five pieces.
  lemma FiveSegments(b: bytes, i: nat, j: nat, k: nat, l: nat, end: nat)
    requires i <= j <= k <= l <= end <= |b|
    ensures b[..i] + b[i..j] + b[j..k] + b[k..l] + b[l..end] == b[..end]
  {
    Adjacent(b, i, j);
    Adjacent(b, j, k);
    Adjacent(b, k, l);
    Adjacent(b, l, end);
  }

  const NEWLINE: byte := 10

  function Newlines(s: bytes): nat {
    if s == [] then 0 else Newlines(s[1..]) + if s[0] == NEWLINE then 1 else 0
  }

  lemma {:induction false} NewlinesConcat(s: bytes, t: bytes)
    ensures Newlines(s + t) == Newlines(s) + Newlines(t)
    decreases |s|
  {
    if s == [] {
      assert s + t == t;
    } else {
      assert (s + t)[1..] == s[1..] + t;
      NewlinesConcat(s[1..], t);
    }
  }

  lemma NewlinesOfSuffix(s: bytes, i: nat, j: nat)
    requires i <= j <= |s|
    ensures Newlines(s[i..]) >= Newlines(s[j..])
  {
    assert s[i..] == s[i..j] + s[j..];
    NewlinesConcat(s[i..j], s[j..]);
  }

  lemma NewlinesOfPrefix(s: bytes, i: nat, j: nat)
    requires i <= j <= |s|
    ensures Newlines(s[..i]) <= Newlines(s[..j])
  {
    assert s[..j] == s[..i] + s[i..j];
    NewlinesConcat(s[..i], s[i..j]);
  }
}
