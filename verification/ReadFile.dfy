/** Reading a file on the daemon (internal/tools/readfile.go) and putting it together again on the
    bridge (ReadFileHandler and DownloadHandler in internal/cliclient). */
module ReadFile {
  import opened Wrappers
  import opened Bytes
  import opened Transfer

  const READ_CHUNK_SIZE := 0x10_0000

  datatype Request = Request(offset: int, limit: int, maxSize: int)

  // What can go wrong besides the caps; the loop's failures by iteration.
  datatype Trouble = NoTrouble | Missing | Unopenable | SeekFails | CancelledAt(i: nat) | ReadFailsAt(i: nat)

  // The bytes a request asks for.
  function Slice(file: bytes, req: Request): bytes
    requires req.offset >= 0 && req.limit >= 0
  {
    UpTo(if req.offset <= |file| then file[req.offset..] else [], req.limit)
  }

  /** What a request asks for is what the file has from its offset on, up to its limit if it has one. */
  lemma SliceExactly(file: bytes, req: Request)
    requires req.offset >= 0 && req.limit >= 0
    ensures var got, rest := Slice(file, req), if req.offset < |file| then |file| - req.offset else 0;
      && |got| == (if req.limit > 0 && req.limit < rest then req.limit else rest)
      && forall i :: 0 <= i < |got| ==> got[i] == file[req.offset + i]
  {
  }

  function HardCap(req: Request, maxBytes: nat): nat {
    if 0 < req.maxSize < maxBytes then req.maxSize else maxBytes
  }

  // What ReadFile promises: all of the slice in well-cut chunks, or a prefix of it without an end.
  ghost predicate Delivers(file: bytes, req: Request, maxBytes: nat, sha: bytes -> Digest, chunks: seq<Chunk>, a: Answer) {
    if req.offset < 0 || req.limit < 0 then chunks == [] && a == Failure(0, BadPayload)
    else Ended(Slice(file, req), HardCap(req, maxBytes), sha, chunks, a)
  }

  ghost predicate Ended(slice: bytes, hardCap: nat, sha: bytes -> Digest, chunks: seq<Chunk>, a: Answer) {
    if Success(a) then
      |slice| <= hardCap && Splits(chunks, slice) && a.complete == FileComplete(|slice|, sha(slice), ErrNone)
    else
      Concat(chunks) <= slice && |Concat(chunks)| <= hardCap && forall c :: c in chunks ==> !c.eof
  }

  ghost predicate SmallChunks(chunks: seq<Chunk>) {
    forall c :: c in chunks ==> |c.data| <= READ_CHUNK_SIZE
  }

  function UpTo(rest: bytes, limit: nat): bytes {
    if 0 < limit < |rest| then rest[..limit] else rest
  }

  // Between two reads: total bytes of rest, the file from the offset on, have been emitted.
  ghost predicate Reading(rest: bytes, limit: nat, hardCap: nat, chunks: seq<Chunk>, total: nat) {
    && total <= |rest| && total <= hardCap && (limit > 0 ==> total <= limit)
    && Concat(chunks) == rest[..total]
    && (forall c :: c in chunks ==> !c.eof) && SmallChunks(chunks)
  }

  lemma ReadingIsPrefix(rest: bytes, limit: nat, hardCap: nat, chunks: seq<Chunk>, total: nat)
    requires Reading(rest, limit, hardCap, chunks, total)
    ensures Concat(chunks) <= UpTo(rest, limit)
    ensures total == |rest| || (limit > 0 && total == limit) ==> Concat(chunks) == UpTo(rest, limit)
  {
    if 0 < limit < |rest| {
      assert rest[..total] == rest[..limit][..total];
    }
  }

  // The answer once total bytes have been emitted and there is no more to come.
  function Whole(rest: bytes, total: nat, sha: bytes -> Digest): Answer
    requires total <= |rest|
  {
    Answer(FileComplete(total, sha(rest[..total]), ErrNone), false)
  }

  lemma EmitKeepsReading(rest: bytes, limit: nat, hardCap: nat, chunks: seq<Chunk>, total: nat, c: Chunk)
    requires Reading(rest, limit, hardCap, chunks, total) && !c.eof && |c.data| <= READ_CHUNK_SIZE
    requires total + |c.data| <= |rest| && c.data == rest[total..total + |c.data|]
    requires total + |c.data| <= hardCap && (limit > 0 ==> total + |c.data| <= limit)
    ensures Reading(rest, limit, hardCap, chunks + [c], total + |c.data|)
  {
    ConcatAppend(chunks, c);
    assert rest[..total] + c.data == rest[..total + |c.data|];
  }

  lemma EmitEnds(rest: bytes, limit: nat, hardCap: nat, sha: bytes -> Digest, chunks: seq<Chunk>, total: nat, c: Chunk)
    requires Reading(rest, limit, hardCap, chunks, total) && c.eof && |c.data| <= READ_CHUNK_SIZE
    requires c.data == rest[total..] && |rest| <= hardCap && (limit > 0 ==> |rest| <= limit)
    ensures Ended(UpTo(rest, limit), hardCap, sha, chunks + [c], Whole(rest, |rest|, sha)) && SmallChunks(chunks + [c])
  {
    Closes(chunks, c);
    assert rest[..total] + c.data == rest && rest[..|rest|] == rest;
  }

  lemma EmitRefused(rest: bytes, limit: nat, hardCap: nat, sha: bytes -> Digest, chunks: seq<Chunk>, total: nat, n: nat)
    requires Reading(rest, limit, hardCap, chunks, total) && total + n > hardCap
    requires total + n <= |rest| && (limit > 0 ==> total + n <= limit)
    ensures Ended(UpTo(rest, limit), hardCap, sha, chunks, Failure(total, ExceedsMaxSize))
    ensures |UpTo(rest, limit)| > hardCap && total == |Concat(chunks)|
  {
    ReadingIsPrefix(rest, limit, hardCap, chunks, total);
  }

  // One read and what follows from it; end is set when the function returns.
  method ReadOnce(rest: bytes, limit: nat, hardCap: nat, sha: bytes -> Digest, before: seq<Chunk>, start: nat)
    returns (chunks: seq<Chunk>, total: nat, end: Option<Answer>)
    requires Reading(rest, limit, hardCap, before, start) && !(0 < limit <= start)
    ensures end.None? ==> total > start && Reading(rest, limit, hardCap, chunks, total)
    ensures end.Some? ==> Ended(UpTo(rest, limit), hardCap, sha, chunks, end.value) && SmallChunks(chunks)
    ensures end.Some? && !Success(end.value) ==>
              |UpTo(rest, limit)| > hardCap && end.value == Failure(|Concat(chunks)|, ExceedsMaxSize)
  {
    chunks, total := before, start;
    var readN := READ_CHUNK_SIZE;
    if limit > 0 && limit - total < readN {
      readN := limit - total;
    }
    var n, eof := Read(rest, total, readN);
    if n > 0 {
      if total + n > hardCap {
        EmitRefused(rest, limit, hardCap, sha, chunks, total, n);
        return chunks, total, Some(Failure(total, ExceedsMaxSize));
      }
      var c := Chunk(rest[total..total + n], eof);
      if eof {
        EmitEnds(rest, limit, hardCap, sha, chunks, total, c);
        return chunks + [c], total + n, Some(Whole(rest, total + n, sha));
      }
      EmitKeepsReading(rest, limit, hardCap, chunks, total, c);
      chunks, total := chunks + [c], total + n;
    }
    if eof {
      EmitEnds(rest, limit, hardCap, sha, chunks, total, Chunk([], true));
      return chunks + [Chunk([], true)], total, Some(Whole(rest, total, sha));
    }
    end := None;
  }

  // The loop of ReadFile, over what the file has from the offset on.
  method ReadOn(rest: bytes, limit: nat, hardCap: nat, sha: bytes -> Digest, trouble: Trouble)
    returns (chunks: seq<Chunk>, a: Answer)
    ensures Ended(UpTo(rest, limit), hardCap, sha, chunks, a) && SmallChunks(chunks)
    ensures a.cancelled ==> trouble.CancelledAt? && a.complete.err == ErrNone
    ensures !a.cancelled && a.complete.err == ErrNone ==> |UpTo(rest, limit)| <= hardCap
    ensures !a.cancelled && a.complete.err != ErrNone ==>
              || (trouble.ReadFailsAt? && a.complete.err == ReadFailed)
              || (|UpTo(rest, limit)| > hardCap && a == Failure(|Concat(chunks)|, ExceedsMaxSize))
  {
    chunks := [];
    var total, i := 0, 0;
    while true
      invariant Reading(rest, limit, hardCap, chunks, total)
      decreases |rest| - total
    {
      ReadingIsPrefix(rest, limit, hardCap, chunks, total);
      if trouble == CancelledAt(i) {
        return chunks, Answer(FileComplete(0, "", ErrNone), true);
      }
      if 0 < limit <= total {
        Closes(chunks, Chunk([], true));
        return chunks + [Chunk([], true)], Whole(rest, total, sha);
      }
      var end;
      chunks, total, end := ReadOnce(rest, limit, hardCap, sha, chunks, total);
      if end.Some? {
        return chunks, end.value;
      }
      ReadingIsPrefix(rest, limit, hardCap, chunks, total);
      if trouble == ReadFailsAt(i) {
        return chunks, Failure(total, ReadFailed);
      }
      i := i + 1;
    }
  }

  /** ReadFile, for any pattern of short reads. */
  method ReadFile(file: bytes, req: Request, maxBytes: nat, sha: bytes -> Digest, trouble: Trouble)
    returns (chunks: seq<Chunk>, a: Answer)
    ensures Delivers(file, req, maxBytes, sha, chunks, a) && SmallChunks(chunks)
    ensures req.offset >= 0 && req.limit >= 0 && trouble == NoTrouble ==>
              (Success(a) <==> |Slice(file, req)| <= HardCap(req, maxBytes))
              && (!Success(a) ==> a == Failure(|Concat(chunks)|, ExceedsMaxSize))
    ensures req.offset >= 0 && req.limit >= 0 ==>
              var n := |Slice(file, req)|;
              && (Success(a) ==> n <= maxBytes && (req.maxSize > 0 ==> n <= req.maxSize))
              && (a.complete.err == ExceedsMaxSize ==> n > maxBytes || 0 < req.maxSize < n)
    ensures a.complete.err == BadPayload <==> req.offset < 0 || req.limit < 0
    ensures a.cancelled ==> trouble.CancelledAt?
    ensures req.offset >= 0 && req.limit >= 0 ==>
              match trouble
              case Missing => a == Failure(0, NotFound)
              case Unopenable => a == Failure(0, OpenFailed)
              case SeekFails => if req.offset > 0 then a == Failure(0, ReadFailed)
                                else Success(a) || a.complete.err == ExceedsMaxSize
              case ReadFailsAt(_) => Success(a) || a.complete.err == ExceedsMaxSize || a.complete.err == ReadFailed
              case _ => a.cancelled || Success(a) || a.complete.err == ExceedsMaxSize
  {
    chunks := [];
    if req.offset < 0 || req.limit < 0 {
      return chunks, Failure(0, BadPayload);
    }
    match trouble {
      case Missing => return chunks, Failure(0, NotFound);
      case Unopenable => return chunks, Failure(0, OpenFailed);
      case SeekFails =>
        if req.offset > 0 {
          return chunks, Failure(0, ReadFailed);
        }
      case _ =>
    }
    var rest := if req.offset <= |file| then file[req.offset..] else [];
    chunks, a := ReadOn(rest, req.limit, HardCap(req, maxBytes), sha, trouble);
  }

  // A last chunk closes a list of chunks that has none.
  lemma Closes(chunks: seq<Chunk>, last: Chunk)
    requires (forall c :: c in chunks ==> !c.eof) && last.eof
    ensures Splits(chunks + [last], Concat(chunks) + last.data)
  {
    ConcatAppend(chunks, last);
  }

  // ---------- on the bridge ----------

  // A frame of the call's ReqID: a chunk or FileComplete whose payload decodes, one whose payload does
  // not, an Error frame, or any other type, which both loops skip.
  datatype Message = ChunkFrame(c: Chunk) | CompleteFrame(complete: FileComplete) | Undecodable | ErrorFrame | OtherFrame

  // Done: the daemon's FileComplete came. Otherwise the reason why the handler gave up.
  datatype Outcome = Done(complete: FileComplete) | TooMuch | BadReply | DaemonError | Lost

  // The content gathered, and how the handler's loop ended.
  datatype Gathered = Gathered(content: bytes, outcome: Outcome)

  const MAX_BUFFERED_OUTPUT := 10 * 0x10_0000

  // capped is false for a download to a local file.
  function Gather(messages: seq<Message>, capped: bool, got: bytes): Gathered
    decreases |messages|
  {
    if messages == [] then Gathered(got, Lost)
    else match messages[0]
         case ChunkFrame(c) =>
           if capped && |got| + |c.data| > MAX_BUFFERED_OUTPUT then Gathered(got, TooMuch)
           else Gather(messages[1..], capped, got + c.data)
         case CompleteFrame(complete) => Gathered(got, Done(complete))
         case Undecodable => Gathered(got, BadReply)
         case ErrorFrame => Gathered(got, DaemonError)
         case OtherFrame => Gather(messages[1..], capped, got)
  }

  /** The loops of ReadFileHandler and DownloadHandler over the frames of their ReqID; the end of the
      list stands for a cancelled call or a closed connection. */
  method Reassemble(messages: seq<Message>, capped: bool) returns (content: bytes, outcome: Outcome)
    ensures Gathered(content, outcome) == Gather(messages, capped, [])
  {
    content := [];
    var i := 0;
    while i < |messages|
      invariant 0 <= i <= |messages|
      invariant Gather(messages, capped, []) == Gather(messages[i..], capped, content)
    {
      assert messages[i..][1..] == messages[i + 1..];
      match messages[i] {
        case ChunkFrame(c) =>
          if capped && |content| + |c.data| > MAX_BUFFERED_OUTPUT {
            return content, TooMuch;
          }
          content := content + c.data;
        case CompleteFrame(complete) => return content, Done(complete);
        case Undecodable => return content, BadReply;
        case ErrorFrame => return content, DaemonError;
        case OtherFrame =>
      }
      i := i + 1;
    }
    outcome := Lost;
  }

  // The content of the chunks among the messages.
  function DataOf(messages: seq<Message>): bytes {
    if messages == [] then []
    else
      var m := messages[|messages| - 1];
      DataOf(messages[..|messages| - 1]) + if m.ChunkFrame? then m.c.data else []
  }

  // The k-th message is a FileComplete, with nothing but chunks and skipped frames before it.
  ghost predicate CompletesAt(messages: seq<Message>, k: nat) {
    && k < |messages| && messages[k].CompleteFrame?
    && forall j :: 0 <= j < k ==> messages[j].ChunkFrame? || messages[j].OtherFrame?
  }

  /** A FileComplete is what the handler ends with if and only if no Error frame and no undecodable payload
      came before it and what was gathered by then is within the cap. */
  lemma DoneExactly(messages: seq<Message>, capped: bool)
    ensures Gather(messages, capped, []).outcome.Done? <==>
              exists k: nat :: CompletesAt(messages, k) && (capped ==> |DataOf(messages[..k])| <= 10 * 1024 * 1024)
    ensures forall k: nat :: CompletesAt(messages, k) && (capped ==> |DataOf(messages[..k])| <= 10 * 1024 * 1024) ==>
              Gather(messages, capped, []) == Gathered(DataOf(messages[..k]), Done(messages[k].complete))
  {
    assert messages[0..] == messages;
    DoneFrom(messages, capped, 0);
  }

  lemma {:induction false} DoneFrom(messages: seq<Message>, capped: bool, i: nat)
    requires i <= |messages| && forall j :: 0 <= j < i ==> messages[j].ChunkFrame? || messages[j].OtherFrame?
    requires capped ==> |DataOf(messages[..i])| <= MAX_BUFFERED_OUTPUT
    ensures var g := Gather(messages[i..], capped, DataOf(messages[..i]));
      && (g.outcome.Done? <==> exists k: nat :: i <= k && CompletesAt(messages, k) && (capped ==> |DataOf(messages[..k])| <= MAX_BUFFERED_OUTPUT))
      && (forall k: nat :: CompletesAt(messages, k) && (capped ==> |DataOf(messages[..k])| <= MAX_BUFFERED_OUTPUT) ==>
            g == Gathered(DataOf(messages[..k]), Done(messages[k].complete)))
    decreases |messages| - i
  {
    if i < |messages| {
      var m := messages[i];
      assert messages[i..][1..] == messages[i + 1..] && messages[..i + 1][..i] == messages[..i];
      forall k: nat | CompletesAt(messages, k)
        ensures k == i || (i < k && (m.ChunkFrame? || m.OtherFrame?))
      {
      }
      if m.CompleteFrame? {
        assert CompletesAt(messages, i);
      } else if m.OtherFrame? || m.ChunkFrame? {
        assert DataOf(messages[..i]) + [] == DataOf(messages[..i]);
        if m.ChunkFrame? && capped && |DataOf(messages[..i + 1])| > MAX_BUFFERED_OUTPUT {
          forall k: nat | CompletesAt(messages, k)
            ensures |DataOf(messages[..k])| > MAX_BUFFERED_OUTPUT
          {
            DataGrows(messages, i + 1, k);
          }
        } else {
          DoneFrom(messages, capped, i + 1);
        }
      }
    }
  }

  lemma {:induction false} DataGrows(messages: seq<Message>, i: nat, j: nat)
    requires i <= j <= |messages|
    ensures |DataOf(messages[..i])| <= |DataOf(messages[..j])|
    decreases j - i
  {
    if i < j {
      assert messages[..j][..j - 1] == messages[..j - 1];
      DataGrows(messages, i, j - 1);
    }
  }

  // What handleRead hands to sendInner: the chunks as they are emitted, then the FileComplete.
  function Handed(chunks: seq<Chunk>, complete: FileComplete): (ms: seq<Message>)
    ensures |ms| == |chunks| + 1 && ms[|chunks|] == CompleteFrame(complete)
    ensures forall i :: 0 <= i < |chunks| ==> ms[i] == ChunkFrame(chunks[i])
  {
    seq(|chunks|, i requires 0 <= i < |chunks| => ChunkFrame(chunks[i])) + [CompleteFrame(complete)]
  }

  // What of it can be written. ReadFile answers that it was cancelled only when the context is done, and
  // the FileComplete is sent under the same context, so Send refuses it.
  function Sendable(chunks: seq<Chunk>, a: Answer): (ms: seq<Message>)
    ensures ms <= Handed(chunks, a.complete)
  {
    if a.cancelled then Handed(chunks, a.complete)[..|chunks|] else Handed(chunks, a.complete)
  }

  lemma {:induction false} GathersPrefix(chunks: seq<Chunk>, complete: FileComplete, capped: bool, k: nat, n: nat)
    requires k <= |chunks| && k <= n <= |chunks| + 1
    requires capped ==> |Concat(chunks[..k])| <= MAX_BUFFERED_OUTPUT
    ensures var g := Gather(Handed(chunks, complete)[k..n], capped, Concat(chunks[..k]));
      && g.content <= Concat(chunks)
      && (g.outcome.Done? <==> n == |chunks| + 1 && (capped ==> |Concat(chunks)| <= MAX_BUFFERED_OUTPUT))
      && (g.outcome.Done? ==> g == Gathered(Concat(chunks), Done(complete)))
    decreases n - k
  {
    var ms := Handed(chunks, complete);
    ConcatPrefix(chunks, k);
    if k < n && k < |chunks| {
      assert ms[k..n][1..] == ms[k + 1..n];
      assert chunks[..k + 1] == chunks[..k] + [chunks[k]];
      ConcatAppend(chunks[..k], chunks[k]);
      ConcatPrefix(chunks, k + 1);
      if !(capped && |Concat(chunks[..k + 1])| > MAX_BUFFERED_OUTPUT) {
        GathersPrefix(chunks, complete, capped, k + 1, n);
      }
    } else {
      assert chunks[..|chunks|] == chunks;
    }
  }

  lemma {:induction false} ConcatPrefix(cs: seq<Chunk>, k: nat)
    requires k <= |cs|
    ensures Concat(cs[..k]) <= Concat(cs)
    decreases |cs|
  {
    if k < |cs| {
      ConcatPrefix(cs[..|cs| - 1], k);
      assert cs[..|cs| - 1][..k] == cs[..k];
    } else {
      assert cs[..k] == cs;
    }
  }

  /** A read or download over a channel that delivers a prefix of what the daemon can write: the handler
      reports success exactly when everything came, the slice is within the caps of both sides and
      the daemon reported success, and then the content is the slice; what it gathers otherwise is a
      prefix of the slice. */
  lemma ReadIsExactOrFails(file: bytes, req: Request, maxBytes: nat, sha: bytes -> Digest,
                           chunks: seq<Chunk>, a: Answer, capped: bool, n: nat)
    requires req.offset >= 0 && req.limit >= 0
    requires Delivers(file, req, maxBytes, sha, chunks, a) && n <= |Sendable(chunks, a)|
    ensures var slice := Slice(file, req);
      var g := Gather(Sendable(chunks, a)[..n], capped, []);
      && g.content <= slice
      && (g.outcome.Done? && g.outcome.complete.err == ErrNone <==>
            n == |chunks| + 1 && Success(a) && (capped ==> |slice| <= MAX_BUFFERED_OUTPUT))
      && (g.outcome.Done? && g.outcome.complete.err == ErrNone ==>
            g.content == slice && g.outcome.complete == FileComplete(|slice|, sha(slice), ErrNone))
  {
    GathersPrefix(chunks, a.complete, capped, 0, n);
    assert chunks[..0] == [];
    assert Handed(chunks, a.complete)[0..n] == Sendable(chunks, a)[..n];
  }
}
