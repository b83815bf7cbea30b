/** Files over the encrypted channel. Upwards the splitters' chunks go through sendInner, the relay and
    the daemon's session to the handlers of TransferRuns; downwards what ReadFile emits goes through
    the bridge's read loop to the queue of its call. */
module FilesEndToEnd {
  import opened Bytes
  import opened Crypto
  import opened Proto
  import Transfer
  import ReadFile
  import C = Channel
  import R = Receiving
  import Guarantees
  import E = EndToEnd
  import T = TransferRuns
  import opened Endpoints
  import opened Daemon

  // The daemon dispatches what it accepts in session i, and the bridge handed sendInner well-cut
  // transfers with distinct ReqIDs in that session.
  ghost predicate Carries(ch: C.Config, w: C.State, required: bool, xs: seq<R.Inbound>, i: nat, cfg: T.Config) {
    && ch.mutex && ch.suite.IdealAead() && C.Reachable(ch, w) && i < |w.sessions|
    && R.AllRelayed(ch.suite, w, xs) && R.FreshKeys(xs)
    && (forall f :: f in w.sessions[i].log ==> |f.reqID| < MAX_REQ_ID_LEN)
    && cfg.frames == E.Dispatched(Guarantees.Got(ch, w, required, xs, i))
    && (forall id :: id in cfg.plans ==> Transfer.Splits(cfg.plans[id].chunks, cfg.plans[id].content))
    && T.WellSent(cfg, w.sessions[i].log)
  }

  /** For any senders, any relay and any interleaving of handlers: when a transfer to a path of its own
      succeeds, the destination holds exactly the bytes given to the bridge; otherwise it is as it was. */
  lemma ExactOrUntouched(ch: C.Config, w: C.State, required: bool, xs: seq<R.Inbound>, i: nat,
                         cfg: T.Config, s: T.State, id: T.ReqID)
    requires Carries(ch, w, required, xs, i, cfg) && T.Reachable(cfg, s) && id in cfg.plans
    requires forall j :: j in cfg.plans && j != id ==> cfg.plans[j].path != cfg.plans[id].path
    ensures var p := cfg.plans[id].path;
      if id in s.workers && s.workers[id].phase == T.Finished(true)
      then p in s.files && s.files[p] == cfg.plans[id].content
      else T.Same(p, s.files, cfg.initial)
  {
    E.DispatchIsPrefix(ch, w, required, xs, i);
    T.PrefixWellSent(cfg, cfg.frames, w.sessions[i].log);
    T.ExactOrUntouched(cfg, s, id);
  }

  /** And through a relay that loses nothing, when no Send failed, a transfer that was sent in full is
      renamed into place as soon as its handler has taken what came in, if it is within the cap and as
      expected. */
  lemma LosslessTransferCommits(ch: C.Config, w: C.State, required: bool, apiKey: bytes, i: nat,
                                cfg: T.Config, s: T.State, id: T.ReqID)
    requires i < |w.sessions|
    requires var xs := [R.Handshaken(w.sessions[i].agreed)] + E.Arrivals(ch.suite, apiKey, w.wire);
      Carries(ch, w, required, xs, i, cfg)
    requires ch.suite.Ideal() && ch.overhead == MAC_SIZE && R.PlaintextIsForeign(ch.suite, w)
    requires R.LeadingSent(w.sessions[i].fate) == |w.sessions[i].log|
    requires T.Reachable(cfg, s) && s.next == |cfg.frames|
    requires id in s.workers && id in s.slots && s.workers[id].phase.Receiving? && s.workers[id].inbound == []
    requires id in cfg.plans && T.Pieces(cfg, w.sessions[i].log, id) == cfg.plans[id].chunks
    ensures var plan := cfg.plans[id];
      T.Enabled(cfg, s, T.Commit(id)) <==> |plan.content| <= T.Cap(plan) && T.Checked(cfg, plan, plan.content)
  {
    var log := w.sessions[i].log;
    E.DispatchIsComplete(ch, w, apiKey, required, i);
    assert log[..|log|] == log && cfg.frames == log;
    assert cfg.frames[..s.next] == log;
    T.CommitsExactlyWhenAccepted(cfg, s, id);
    var x := s.workers[id];
    assert x.taken + x.inbound == x.taken;
  }

  // ---------- the other direction ----------

  function Messages(fs: seq<Frame>, decode: Frame -> ReadFile.Message): (ms: seq<ReadFile.Message>)
    ensures |ms| == |fs| && forall k :: 0 <= k < |fs| ==> ms[k] == decode(fs[k])
  {
    seq(|fs|, k requires 0 <= k < |fs| => decode(fs[k]))
  }

  lemma {:induction false} FilterKeepsPrefix(fs: seq<Frame>, n: nat, id: bytes)
    requires n <= |fs|
    ensures WithReqID(fs[..n], id) <= WithReqID(fs, id)
    decreases |fs| - n
  {
    if n < |fs| {
      FilterKeepsPrefix(fs, n + 1, id);
      FiltersOneMore(fs[..n], fs[n], id);
      assert fs[..n + 1] == fs[..n] + [fs[n]];
    } else {
      assert fs[..n] == fs;
    }
  }

  lemma {:induction false} InFilter(fs: seq<Frame>, id: bytes, k: nat)
    requires k < |WithReqID(fs, id)|
    ensures exists m: nat :: m < |fs| && fs[m].reqID == id && fs[m] == WithReqID(fs, id)[k]
    decreases |fs|
  {
    var init := fs[..|fs| - 1];
    if k < |WithReqID(init, id)| {
      InFilter(init, id, k);
      var m: nat :| m < |init| && init[m].reqID == id && init[m] == WithReqID(init, id)[k];
      assert fs[m] == init[m];
    } else {
      assert fs[|fs| - 1].reqID == id;
    }
  }

  // The daemon's handler has handed these frames of its call to sendInner so far; if the call was
  // cancelled, Send refuses the FileComplete.
  ghost predicate Serves(x: C.Sess, id: bytes, decode: Frame -> ReadFile.Message, chunks: seq<Transfer.Chunk>, a: Transfer.Answer) {
    && Messages(WithReqID(x.log, id), decode) <= ReadFile.Handed(chunks, a.complete)
    && (a.cancelled ==> forall m: nat :: m < |x.log| && Completes(x.log[m], id, decode) ==> IsUnwritten(x, m))
  }

  predicate Completes(f: Frame, id: bytes, decode: Frame -> ReadFile.Message) {
    f.reqID == id && decode(f).CompleteFrame?
  }

  predicate IsUnwritten(x: C.Sess, m: nat) {
    m < |x.fate| ==> x.fate[m] != C.Sent
  }

  lemma CompleteStaysBehind(x: C.Sess, n: nat, id: bytes, decode: Frame -> ReadFile.Message,
                            chunks: seq<Transfer.Chunk>, a: Transfer.Answer)
    requires Serves(x, id, decode, chunks, a) && |x.log| == |x.fate| && n <= R.LeadingSent(x.fate)
    ensures Messages(WithReqID(x.log[..n], id), decode) <= ReadFile.Sendable(chunks, a)
  {
    FilterKeepsPrefix(x.log, n, id);
    var queue := WithReqID(x.log[..n], id);
    assert Messages(queue, decode) <= ReadFile.Handed(chunks, a.complete);
    if a.cancelled && |queue| == |chunks| + 1 {
      InFilter(x.log[..n], id, |chunks|);
      R.LeadingSentExactly(x.fate, n);
      assert false;
    }
  }

  const TYPE_FILE_COMPLETE: byte := 33

  /** handleRead and handleDownload on one context: ReadFile, a frame per chunk, and the FileComplete. live
      and wrote say how the Send of the k-th frame finds the context and ends; a context that was found
      done stays done. parts and last are what gets written of the chunks and of the FileComplete: of a cancelled read's
      FileComplete, nothing. */
  method HandleRead(d: DaemonState, id: bytes, file: bytes, req: ReadFile.Request, maxBytes: nat,
                    sha: bytes -> Transfer.Digest, trouble: ReadFile.Trouble, encode: ReadFile.Message -> bytes,
                    live: nat -> bool, wrote: nat -> bool)
    returns (chunks: seq<Transfer.Chunk>, a: Transfer.Answer, parts: seq<bytes>, last: seq<bytes>)
    requires d.Valid()
    modifies d.session, d.conn
    ensures ReadFile.Delivers(file, req, maxBytes, sha, chunks, a)
    ensures d.Valid() && d.conn.out == old(d.conn.out) + parts + last
    ensures |parts| <= |chunks| && |last| <= 1 && (a.cancelled ==> last == [])
  {
    chunks, a := ReadFile.ReadFile(file, req, maxBytes, sha, trouble);
    var before := d.conn.out;
    for k := 0 to |chunks|
      invariant d.Valid() && before <= d.conn.out && |d.conn.out| <= |before| + k
    {
      d.SendInner(Frame(T.TYPE_FILE_CHUNK, id, encode(ReadFile.ChunkFrame(chunks[k]))), live(k), wrote(k));
    }
    var between := d.conn.out;
    d.SendInner(Frame(TYPE_FILE_COMPLETE, id, encode(ReadFile.CompleteFrame(a.complete))),
                !a.cancelled && live(|chunks|), wrote(|chunks|));
    parts, last := between[|before|..], d.conn.out[|between|..];
  }

  /** A read or download over the encrypted channel, among any other calls on the same connection, and
      cancelled or not: what reaches the queue of its ReqID makes the handler report success exactly when
      all the daemon sent has come, the daemon succeeded and the slice is within the caps of both sides,
      and then the content is the slice; otherwise what was gathered is a prefix of it. */
  lemma ReadIsExactOrFails(ch: C.Config, w: C.State, required: bool, xs: seq<R.Inbound>, i: nat, id: bytes,
                           decode: Frame -> ReadFile.Message, file: bytes, req: ReadFile.Request, maxBytes: nat,
                           sha: bytes -> Transfer.Digest, chunks: seq<Transfer.Chunk>, a: Transfer.Answer, capped: bool)
    requires ch.mutex && ch.suite.IdealAead() && C.Reachable(ch, w) && i < |w.sessions|
    requires R.AllRelayed(ch.suite, w, xs) && R.FreshKeys(xs)
    requires forall f :: f in w.sessions[i].log ==> |f.reqID| < MAX_REQ_ID_LEN
    requires req.offset >= 0 && req.limit >= 0
    requires ReadFile.Delivers(file, req, maxBytes, sha, chunks, a) && Serves(w.sessions[i], id, decode, chunks, a)
    ensures var slice := ReadFile.Slice(file, req);
      var queue := WithReqID(E.Dispatched(Guarantees.Got(ch, w, required, xs, i)), id);
      var g := ReadFile.Gather(Messages(queue, decode), capped, []);
      && g.content <= slice
      && (g.outcome.Done? && g.outcome.complete.err == Transfer.ErrNone <==>
            |queue| == |chunks| + 1 && Transfer.Success(a) && (capped ==> |slice| <= ReadFile.MAX_BUFFERED_OUTPUT))
      && (g.outcome.Done? && g.outcome.complete.err == Transfer.ErrNone ==> g.content == slice)
  {
    var x, got := w.sessions[i], E.Dispatched(Guarantees.Got(ch, w, required, xs, i));
    Guarantees.Safety(ch, w, required, xs, i);
    E.DispatchIsPrefix(ch, w, required, xs, i);
    assert x.log[..|got|] == got;
    CompleteStaysBehind(x, |got|, id, decode, chunks, a);
    var ms := Messages(WithReqID(got, id), decode);
    assert ms == ReadFile.Sendable(chunks, a)[..|ms|];
    ReadFile.ReadIsExactOrFails(file, req, maxBytes, sha, chunks, a, capped, |ms|);
  }

  // ---------- what the bridge reports of a transfer ----------

  // The end of WriteFileHandler, and of UploadHandler, which takes any other frame for a failure. Neither
  // decodes chunks: for them every frame that is no FileComplete and no Error is an OtherFrame.
  predicate ReportsSuccess(messages: seq<ReadFile.Message>, upload: bool)
    decreases |messages|
  {
    messages != [] &&
    match messages[0]
    case CompleteFrame(c) => c.err == Transfer.ErrNone
    case Undecodable => false
    case ErrorFrame => false
    case _ => !upload && ReportsSuccess(messages[1..], upload)
  }

  lemma {:induction false} SuccessIsComplete(messages: seq<ReadFile.Message>, upload: bool) returns (k: nat)
    requires ReportsSuccess(messages, upload)
    ensures k < |messages| && messages[k].CompleteFrame? && messages[k].complete.err == Transfer.ErrNone
    decreases |messages|
  {
    if messages[0].CompleteFrame? {
      k := 0;
    } else {
      var j := SuccessIsComplete(messages[1..], upload);
      k := j + 1;
    }
  }

  /** A call is reported as a success if and only if a FileComplete without an error code comes, first of
      all for an upload, and before any Error frame or undecodable payload for a write. */
  lemma {:induction false} ReportsExactly(messages: seq<ReadFile.Message>, upload: bool)
    ensures ReportsSuccess(messages, upload) <==>
              exists k :: 0 <= k < |messages| && messages[k].CompleteFrame? && messages[k].complete.err == Transfer.ErrNone
                          && forall j :: 0 <= j < k ==> !upload && (messages[j].OtherFrame? || messages[j].ChunkFrame?)
    decreases |messages|
  {
    if messages != [] {
      var rest := messages[1..];
      ReportsExactly(rest, upload);
      assert forall j :: 0 <= j < |rest| ==> rest[j] == messages[j + 1];
      if k :| 0 <= k < |messages| && messages[k].CompleteFrame? && messages[k].complete.err == Transfer.ErrNone
              && forall j :: 0 <= j < k ==> !upload && (messages[j].OtherFrame? || messages[j].ChunkFrame?) {
        if k > 0 {
          assert rest[k - 1] == messages[k];
        }
      }
      if !upload && (messages[0].OtherFrame? || messages[0].ChunkFrame?) && ReportsSuccess(rest, upload) {
        var k :| 0 <= k < |rest| && rest[k].CompleteFrame? && rest[k].complete.err == Transfer.ErrNone
                 && forall j :: 0 <= j < k ==> !upload && (rest[j].OtherFrame? || rest[j].ChunkFrame?);
        assert messages[k + 1] == rest[k];
        forall j | 0 <= j < k + 1
          ensures messages[j].OtherFrame? || messages[j].ChunkFrame?
        {
          if j > 0 {
            assert rest[j - 1] == messages[j];
          }
        }
      }
    }
  }

  // Every FileComplete of this ReqID that the daemon's sendInner wrote is its handler's reply.
  ghost predicate RepliesOnly(x: C.Sess, id: bytes, decode: Frame -> ReadFile.Message, s: T.State) {
    forall m: nat :: m < |x.log| && m < |x.fate| && Completes(x.log[m], id, decode) && x.fate[m] == C.Sent ==>
      id in s.replied && s.replied[id] == (decode(x.log[m]).complete.err == Transfer.ErrNone)
  }

  /** From the bridge's handler back to the bridge's handler, over both directions of the channel and any
      relay: a write or upload to a path of its own that is reported as a success has put exactly the
      bytes given to the bridge in place. */
  lemma ReportedSuccessIsExact(up: C.Config, w: C.State, required: bool, xs: seq<R.Inbound>, i: nat,
                               cfg: T.Config, s: T.State, id: T.ReqID,
                               down: C.Config, v: C.State, ys: seq<R.Inbound>, j: nat,
                               decode: Frame -> ReadFile.Message, upload: bool)
    requires Carries(up, w, required, xs, i, cfg) && T.Reachable(cfg, s) && id in cfg.plans
    requires forall k :: k in cfg.plans && k != id ==> cfg.plans[k].path != cfg.plans[id].path
    requires down.mutex && down.suite.IdealAead() && C.Reachable(down, v) && j < |v.sessions|
    requires R.AllRelayed(down.suite, v, ys) && R.FreshKeys(ys)
    requires forall f :: f in v.sessions[j].log ==> |f.reqID| < MAX_REQ_ID_LEN
    requires RepliesOnly(v.sessions[j], id, decode, s)
    requires ReportsSuccess(Messages(WithReqID(E.Dispatched(Guarantees.Got(down, v, false, ys, j)), id), decode), upload)
    ensures var p := cfg.plans[id].path; p in s.files && s.files[p] == cfg.plans[id].content
  {
    var x, got := v.sessions[j], E.Dispatched(Guarantees.Got(down, v, false, ys, j));
    var queue := WithReqID(got, id);
    var k := SuccessIsComplete(Messages(queue, decode), upload);
    InFilter(got, id, k);
    var m: nat :| m < |got| && got[m].reqID == id && got[m] == queue[k];
    Guarantees.Safety(down, v, false, ys, j);
    E.DispatchIsPrefix(down, v, false, ys, j);
    R.LeadingSentExactly(x.fate, |got|);
    assert got[m] == x.log[m] && Completes(x.log[m], id, decode) && x.fate[m] == C.Sent;
    E.DispatchIsPrefix(up, w, required, xs, i);
    T.PrefixWellSent(cfg, cfg.frames, w.sessions[i].log);
    T.RepliesAreTrue(cfg, s, id);
    T.FilesAreWholeCommits(cfg, s);
    T.ExactOrUntouched(cfg, s, id);
  }
}
