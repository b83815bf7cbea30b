/** The bounded output buffer of a background process (internal/tools/bgexec.go) against the unbounded
    stream written to it. */
module BgBuffer {
  import opened Bytes

  // The last min(cap, written) bytes.
  function Window(stream: bytes, cap: nat): bytes {
    if |stream| <= cap then stream else stream[|stream| - cap..]
  }

  datatype Answer = Answer(out: bytes, next: nat, truncated: bool)

  // What asking for everything since an offset gives, in terms of the stream.
  function Since(stream: bytes, cap: nat, offset: int): Answer {
    var start := |stream| - |Window(stream, cap)|;
    if offset >= |stream| then Answer([], |stream|, false)
    else if offset < start then Answer(Window(stream, cap), |stream|, true)
    else Answer(stream[offset..], |stream|, false)
  }

  class Buffer {
    var data: bytes
    var written: nat
    const cap: nat
    ghost var stream: bytes

    ghost predicate Valid()
      reads this
    {
      written == |stream| && data == Window(stream, cap)
    }

    constructor (cap: nat)
      ensures Valid() && stream == [] && this.cap == cap
    {
      data, written, stream, this.cap := [], 0, [], cap;
    }

    method Write(p: bytes) returns (n: nat)
      requires Valid()
      modifies this
      ensures Valid() && stream == old(stream) + p && n == |p|
    {
      written := written + |p|;
      data := data + p;
      if |data| > cap {
        data := data[|data| - cap..];
      }
      stream := stream + p;
      WindowGrows(old(stream), p, cap);
      n := |p|;
    }

    method SinceOffset(offset: int) returns (out: bytes, next: nat, truncated: bool)
      requires Valid()
      ensures Answer(out, next, truncated) == Since(stream, cap, offset)
      ensures next == |stream|
      ensures truncated <==> offset < |stream| - cap || offset < 0
      ensures !truncated ==> out == if offset >= |stream| then [] else stream[offset..]
      ensures truncated ==> out == if |stream| <= cap then stream else stream[|stream| - cap..]
    {
      if offset >= written {
        return [], written, false;
      }
      var bufStart := written - |data|;
      truncated := offset < bufStart;
      var sliceStart := 0;
      if !truncated {
        sliceStart := offset - bufStart;
        assert data[sliceStart..] == stream[offset..];
      }
      out, next := data[sliceStart..], written;
    }

    /** The backward scan: the longest suffix of the retained bytes with at most n newlines. */
    method Tail(n: int) returns (out: bytes, next: nat, truncated: bool)
      requires Valid()
      ensures next == |stream|
      ensures n <= 0 || data == [] ==> out == [] && !truncated
      ensures n > 0 && data != [] ==>
                && (truncated <==> |stream| > cap)
                && |out| <= |data| && out == data[|data| - |out|..] && Newlines(out) <= n
                && forall j :: 0 <= j < |data| - |out| ==> Newlines(data[j..]) > n
    {
      if n <= 0 || |data| == 0 {
        return [], written, false;
      }
      var cnt := 0;
      var i := |data| - 1;
      while i >= 0
        invariant -1 <= i < |data|
        invariant cnt == Newlines(data[i + 1..]) <= n
      {
        assert data[i..][1..] == data[i + 1..];
        if data[i] == NEWLINE {
          cnt := cnt + 1;
          if cnt > n {
            forall j | 0 <= j <= i
              ensures Newlines(data[j..]) > n
            {
              NewlinesOfSuffix(data, j, i);
            }
            return data[i + 1..], written, written > |data|;
          }
        }
        i := i - 1;
      }
      assert data[0..] == data;
      return data, written, written > |data|;
    }
  }

  lemma WindowGrows(stream: bytes, p: bytes, cap: nat)
    ensures Window(stream + p, cap) == Window(Window(stream, cap) + p, cap)
  {
  }

  // ---------- polling ----------

  datatype Op = Wrote(p: bytes) | Polled

  // A reader that passes each returned offset back: what it has gathered, and whether any poll so far
  // reported truncation.
  datatype Reader = Reader(stream: bytes, offset: nat, got: bytes, lost: bool)

  function Polling(cap: nat, ops: seq<Op>): Reader {
    if ops == [] then Reader([], 0, [], false)
    else
      var r := Polling(cap, ops[..|ops| - 1]);
      match ops[|ops| - 1]
      case Wrote(p) => r.(stream := r.stream + p)
      case Polled =>
        var a := Since(r.stream, cap, r.offset);
        Reader(r.stream, a.next, r.got + a.out, r.lost || a.truncated)
  }

  /** Over any interleaving of writes and polls, what was gathered is the whole stream up to the last
      poll if and only if no poll reported truncation, and bytes are missing otherwise. */
  lemma {:induction false} PollingIsCompleteIffNotTruncated(cap: nat, ops: seq<Op>)
    ensures var r := Polling(cap, ops);
      && r.offset <= |r.stream|
      && (r.got == r.stream[..r.offset] <==> !r.lost)
      && (r.lost ==> |r.got| < r.offset)
    decreases |ops|
  {
    if ops != [] {
      var before, op := Polling(cap, ops[..|ops| - 1]), ops[|ops| - 1];
      PollingIsCompleteIffNotTruncated(cap, ops[..|ops| - 1]);
      if op.Wrote? {
        assert (before.stream + op.p)[..before.offset] == before.stream[..before.offset];
      } else {
        var a := Since(before.stream, cap, before.offset);
        assert before.stream[..|before.stream|] == before.stream;
        if !a.truncated {
          assert a.out == before.stream[before.offset..];
          assert before.stream[..before.offset] + before.stream[before.offset..] == before.stream;
        }
      }
    }
  }

  /** A poll is truncated exactly when more than cap bytes were written since the one before. */
  lemma TruncatedWhenOverrun(cap: nat, ops: seq<Op>)
    ensures var r := Polling(cap, ops);
      Since(r.stream, cap, r.offset).truncated <==> |r.stream| - r.offset > cap
  {
    PollingIsCompleteIffNotTruncated(cap, ops);
  }

  /** Logs polls two buffers with the larger of their offsets. For the one that had written less, what
      the next poll returns is what came after the last poll if and only if nothing came, or the two
      offsets were equal; otherwise the bytes in between are skipped, and not reported as truncated. */
  lemma SharedOffsetSkips(cap: nat, before: bytes, more: bytes, shared: nat)
    requires |before| <= shared
    ensures var a := Since(before + more, cap, shared);
      && (|more| <= cap ==> !a.truncated && (a.out == more <==> more == [] || shared == |before|))
      && (!a.truncated ==> a.out == more[if shared - |before| <= |more| then shared - |before| else |more|..])
  {
    var stream := before + more;
    var a := Since(stream, cap, shared);
    if shared < |stream| {
      assert stream[shared..] == more[shared - |before|..];
    }
  }
}
