/** Receiving a file on the daemon (internal/tools/writefile.go, upload.go) and cutting one into chunks
    on the client (internal/cliclient/handlers_file.go, handlers_transfer.go). */
module Transfer {
  import opened Wrappers
  import opened Bytes

  type Path = nat
  type Digest = string

  datatype Chunk = Chunk(data: bytes, eof: bool)

  function Concat(cs: seq<Chunk>): bytes {
    if cs == [] then [] else Concat(cs[..|cs| - 1]) + cs[|cs| - 1].data
  }

  lemma ConcatAppend(cs: seq<Chunk>, c: Chunk)
    ensures Concat(cs + [c]) == Concat(cs) + c.data
  {
    assert (cs + [c])[..|cs|] == cs;
  }

  // A list of chunks that carries content: in order, ended by its last chunk and by no other.
  ghost predicate Splits(cs: seq<Chunk>, content: bytes) {
    cs != [] && Concat(cs) == content && forall i :: 0 <= i < |cs| ==> (cs[i].eof <==> i == |cs| - 1)
  }

  // ---------- cutting a file into chunks ----------

  const WRITE_CHUNK_SIZE := 64 * 1024
  const UPLOAD_CHUNK_SIZE := 0x10_0000

  /** The loop of WriteFileHandler. */
  method SplitContent(content: bytes) returns (cs: seq<Chunk>)
    ensures Splits(cs, content)
    ensures forall c :: c in cs ==> |c.data| <= WRITE_CHUNK_SIZE
  {
    if |content| == 0 {
      cs := [Chunk([], true)];
      ConcatAppend([], cs[0]);
      assert [] + cs == cs;
      return;
    }
    cs := [];
    var off := 0;
    while off < |content|
      invariant 0 <= off
      invariant Concat(cs) == content[..if off < |content| then off else |content|]
      invariant forall i :: 0 <= i < |cs| ==> (cs[i].eof <==> i == |cs| - 1 && off >= |content|)
      invariant off > 0 ==> cs != []
      invariant forall c :: c in cs ==> |c.data| <= WRITE_CHUNK_SIZE
      decreases |content| - off
    {
      var end := off + WRITE_CHUNK_SIZE;
      if end > |content| {
        end := |content|;
      }
      var c := Chunk(content[off..end], end == |content|);
      ConcatAppend(cs, c);
      assert content[..off] + content[off..end] == content[..end];
      cs := cs + [c];
      off := off + WRITE_CHUNK_SIZE;
    }
    assert content[..|content|] == content;
  }

  // What one Read of at most max bytes returns at offset off: some bytes while there are any, and
  // io.EOF at the end, possibly together with the last bytes.
  method Read(content: bytes, off: nat, max: nat) returns (n: nat, eof: bool)
    requires off <= |content| && max > 0
    ensures off < |content| ==> 0 < n <= max && off + n <= |content|
    ensures off == |content| ==> n == 0 && eof
    ensures eof ==> off + n == |content|
  {
    if off == |content| {
      return 0, true;
    }
    n :| 0 < n <= max && off + n <= |content|;
    eof :| eof ==> off + n == |content|;
  }

  /** The loop of UploadHandler over a local file, for any pattern of short reads. */
  method SplitFile(content: bytes) returns (cs: seq<Chunk>)
    ensures Splits(cs, content)
    ensures forall c :: c in cs ==> |c.data| <= UPLOAD_CHUNK_SIZE
  {
    cs := [];
    var off := 0;
    while true
      invariant off <= |content| && Concat(cs) == content[..off]
      invariant forall c :: c in cs ==> !c.eof && |c.data| <= UPLOAD_CHUNK_SIZE
      decreases |content| - off
    {
      var n, eof := Read(content, off, UPLOAD_CHUNK_SIZE);
      if n > 0 {
        var c := Chunk(content[off..off + n], eof);
        ConcatAppend(cs, c);
        assert content[..off] + content[off..off + n] == content[..off + n];
        cs := cs + [c];
        off := off + n;
        if eof {
          break;
        }
      }
      if eof {
        ConcatAppend(cs, Chunk([], true));
        cs := cs + [Chunk([], true)];
        break;
      }
    }
    assert content[..|content|] == content;
  }

  /** The loop of UploadHandler over inline chunks, already decoded. */
  method SplitInline(datas: seq<bytes>) returns (cs: seq<Chunk>)
    requires datas != []
    ensures |cs| == |datas| && Splits(cs, Concat(cs))
    ensures forall i :: 0 <= i < |cs| ==> cs[i].data == datas[i]
  {
    cs := [];
    for i := 0 to |datas|
      invariant |cs| == i
      invariant forall j :: 0 <= j < i ==> cs[j] == Chunk(datas[j], j == |datas| - 1)
    {
      var eof := i == |datas| - 1;
      cs := cs + [Chunk(datas[i], eof)];
    }
  }

  // ---------- receiving ----------

  // What the receiving loop meets: a chunk, a failing source, or its context cancelled.
  datatype Item = Data(c: Chunk) | SourceFails | Cancel

  datatype Received = Complete(content: bytes) | TooBig(size: nat) | SourceError(size: nat) | Cancelled

  // What the loop makes of its source. A source that ends is one that never yields the next chunk.
  function Drain(items: seq<Item>, max: int, got: bytes): Received
    decreases |items|
  {
    if items == [] then SourceError(|got|)
    else match items[0]
         case Cancel => Cancelled
         case SourceFails => SourceError(|got|)
         case Data(c) =>
           if |c.data| > 0 && |got| + |c.data| > max then TooBig(|got|)
           else if c.eof then Complete(got + c.data)
           else Drain(items[1..], max, got + c.data)
  }

  function AsItems(cs: seq<Chunk>): (items: seq<Item>)
    ensures |items| == |cs| && forall i :: 0 <= i < |cs| ==> items[i] == Data(cs[i])
  {
    seq(|cs|, i requires 0 <= i < |cs| => Data(cs[i]))
  }

  lemma {:induction false} DrainSplit(all: seq<Chunk>, content: bytes, max: int, k: nat, n: nat)
    requires Splits(all, content) && k <= n <= |all|
    requires n == |all| ==> k < n
    ensures var d := Drain(AsItems(all[k..n]), max, Concat(all[..k]));
      && (d.Complete? ==> n == |all| && d.content == content)
      && (n == |all| && |content| <= max ==> d == Complete(content))
    decreases n - k
  {
    var items := AsItems(all[k..n]);
    if k < n {
      assert items[0] == Data(all[k]) && items[1..] == AsItems(all[k + 1..n]);
      assert all[..k + 1] == all[..k] + [all[k]];
      ConcatAppend(all[..k], all[k]);
      ConcatGrows(all, k + 1, |all|);
      assert all[..|all|] == all;
      if k + 1 < n {
        DrainSplit(all, content, max, k + 1, n);
      } else if n == |all| {
        assert all[..k + 1] == all;
      }
    }
  }

  lemma ConcatGrows(cs: seq<Chunk>, i: nat, j: nat)
    requires i <= j <= |cs|
    ensures |Concat(cs[..i])| <= |Concat(cs[..j])|
    decreases j - i
  {
    if i < j {
      assert cs[..j] == cs[..j - 1] + [cs[j - 1]];
      ConcatAppend(cs[..j - 1], cs[j - 1]);
      ConcatGrows(cs, i, j - 1);
    }
  }

  /** Of a well-cut file, the receiver completes on the whole list and on no prefix of it, and then
      holds exactly the file; it does complete unless the file is over the cap. */
  lemma PrefixReceivesExactly(all: seq<Chunk>, content: bytes, max: int, n: nat)
    requires Splits(all, content) && n <= |all|
    ensures var d := Drain(AsItems(all[..n]), max, []);
      && (d.Complete? ==> n == |all| && d.content == content)
      && (n == |all| && |content| <= max ==> d == Complete(content))
  {
    DrainSplit(all, content, max, 0, n);
    assert all[0..n] == all[..n];
    assert all[..0] == [];
  }

  /** What decides: a source yields chunks without an end mark and then something else, a last chunk, a
      failure or a cancellation. Over the cap at any point the loop gives up; otherwise what comes then
      says how it ends. */
  lemma {:induction false} DrainDecides(cs: seq<Chunk>, then_: Item, rest: seq<Item>, max: nat, got: bytes)
    requires (forall c :: c in cs ==> !c.eof) && (then_.Data? ==> then_.c.eof) && |got| <= max
    ensures var d := Drain(AsItems(cs) + ([then_] + rest), max, got);
      if |got| + |Concat(cs)| > max then d.TooBig? && d.size <= max
      else match then_
           case Cancel => d == Cancelled
           case SourceFails => d == SourceError(|got| + |Concat(cs)|)
           case Data(c) => if |got| + |Concat(cs)| + |c.data| > max then d == TooBig(|got| + |Concat(cs)|)
                           else d == Complete(got + Concat(cs) + c.data)
    decreases |cs|
  {
    var items := AsItems(cs) + ([then_] + rest);
    if cs == [] {
      assert items == [then_] + rest;
      assert got + [] == got;
    } else {
      assert items[1..] == AsItems(cs[1..]) + ([then_] + rest);
      ConcatCons(cs);
      if |got| + |cs[0].data| <= max {
        DrainDecides(cs[1..], then_, rest, max, got + cs[0].data);
        assert got + cs[0].data + Concat(cs[1..]) == got + Concat(cs);
      }
    }
  }

  lemma {:induction false} ConcatCons(cs: seq<Chunk>)
    requires cs != []
    ensures Concat(cs) == cs[0].data + Concat(cs[1..])
    decreases |cs|
  {
    if |cs| > 1 {
      ConcatCons(cs[..|cs| - 1]);
      assert cs[1..][..|cs| - 2] == cs[..|cs| - 1][1..];
    }
  }

  // The items are the chunks of a well-cut file.
  ghost predicate WellCut(items: seq<Item>, content: bytes) {
    exists cs :: Splits(cs, content) && items == AsItems(cs)
  }

  lemma WellCutCompletes(items: seq<Item>, content: bytes, max: nat)
    requires WellCut(items, content)
    ensures Drain(items, max, []).Complete? <==> |content| <= max
    ensures |content| <= max ==> Drain(items, max, []) == Complete(content)
    ensures |content| > max ==> Drain(items, max, []).TooBig?
  {
    var cs :| Splits(cs, content) && items == AsItems(cs);
    var init, last := cs[..|cs| - 1], cs[|cs| - 1];
    assert items == AsItems(init) + ([Data(last)] + []);
    DrainDecides(init, Data(last), [], max, []);
    assert [] + Concat(init) == Concat(init);
  }

  // The write of item n is reached: only chunks without an end mark before it, bytes to write, and room.
  ghost predicate WritesAt(items: seq<Item>, max: int, n: nat) {
    && n < |items| && items[n].Data? && items[n].c.data != []
    && (forall j :: 0 <= j < n ==> items[j].Data? && !items[j].c.eof)
    && Size(items[..n + 1]) <= max
  }

  // The bytes of the chunks among the items.
  function Size(items: seq<Item>): nat {
    if items == [] then 0
    else Size(items[..|items| - 1]) + if items[|items| - 1].Data? then |items[|items| - 1].c.data| else 0
  }

  lemma {:induction false} SizeGrows(items: seq<Item>, i: nat, j: nat)
    requires i <= j <= |items|
    ensures Size(items[..i]) <= Size(items[..j])
    decreases j - i
  {
    if i < j {
      assert items[..j][..j - 1] == items[..j - 1];
      SizeGrows(items, i, j - 1);
    }
  }

  // ---------- writing it down ----------

  // Which operation on the temporary file fails first, if any; Write failures by place in the stream.
  datatype Fault = NoFault | CreateFails | WriteFails(at: nat) | SyncFails | CloseFails | ChmodFails | RenameFails

  datatype Err = ErrNone | TmpCreateFailed | SourceErr | ExceedsMaxSize | WriteFailed | CloseFailed | ChmodFailed
               | RenameFailed | Sha256Mismatch | SizeMismatch | BadPayload | NotFound | OpenFailed | ReadFailed
               | OldStringNotFound | AmbiguousMatch

  // FileComplete: the size and, on success, the digest, or an error code.
  datatype FileComplete = FileComplete(size: nat, sha: Digest, err: Err)

  // Both results of the source's functions: the second says that the context's error is returned.
  datatype Answer = Answer(complete: FileComplete, cancelled: bool)

  predicate Success(a: Answer) {
    !a.cancelled && a.complete.err == ErrNone
  }

  function Failure(size: nat, err: Err): Answer {
    Answer(FileComplete(size, "", err), false)
  }

  // The answer to a stream that does not complete.
  function Refusal(d: Received): Answer
    requires !d.Complete?
  {
    match d
    case TooBig(size) => Failure(size, ExceedsMaxSize)
    case SourceError(size) => Failure(size, SourceErr)
    case Cancelled => Answer(FileComplete(0, "", ErrNone), true)
  }

  datatype Stop = Eof | WriteStopped | Refused(r: Received)

  class Disk {
    var files: map<Path, bytes>

    constructor (files: map<Path, bytes>)
      ensures this.files == files
    {
      this.files := files;
    }

    method Remove(p: Path)
      modifies this
      ensures files == old(files) - {p}
    {
      files := files - {p};
    }

    /** The loop shared by WriteFile and UploadChunks: it appends to the temporary file and feeds the
        hasher, and is the fold Drain as long as no write fails. */
    method Receive(tmp: Path, items: seq<Item>, max: int, fault: Fault) returns (stop: Stop, hashed: bytes)
      requires tmp in files && files[tmp] == []
      modifies this
      ensures tmp in files && files[tmp] == hashed && files - {tmp} == old(files) - {tmp}
      ensures stop.WriteStopped? <==> fault.WriteFails? && WritesAt(items, max, fault.at)
      ensures stop.Eof? ==> Drain(items, max, []) == Complete(hashed)
      ensures stop.Refused? ==> !stop.r.Complete? && Drain(items, max, []) == stop.r
    {
      hashed := [];
      var i := 0;
      while i < |items|
        invariant 0 <= i <= |items|
        invariant tmp in files && files[tmp] == hashed && files - {tmp} == old(files) - {tmp}
        invariant Drain(items, max, []) == Drain(items[i..], max, hashed)
        invariant |hashed| == Size(items[..i]) && forall j :: 0 <= j < i ==> items[j].Data? && !items[j].c.eof
        invariant !(fault.WriteFails? && fault.at < i && WritesAt(items, max, fault.at))
      {
        assert items[i..][1..] == items[i + 1..] && items[..i + 1][..i] == items[..i];
        if fault.WriteFails? && i <= fault.at < |items| {
          SizeGrows(items, i + 1, fault.at + 1);
        }
        match items[i] {
          case Cancel => return Refused(Cancelled), hashed;
          case SourceFails => return Refused(SourceError(|hashed|)), hashed;
          case Data(c) =>
            assert |c.data| == 0 ==> hashed + c.data == hashed;
            if |c.data| > 0 {
              if |hashed| + |c.data| > max {
                return Refused(TooBig(|hashed|)), hashed;
              }
              if fault == WriteFails(i) {
                return WriteStopped, hashed;
              }
              files := files[tmp := files[tmp] + c.data];
              hashed := hashed + c.data;
            }
            if c.eof {
              return Eof, hashed;
            }
        }
        i := i + 1;
      }
      return Refused(SourceError(|hashed|)), hashed;
    }

    // os.Rename, which replaces the destination in one step.
    method Rename(src: Path, dst: Path)
      requires src in files
      modifies this
      ensures files == (old(files) - {src})[dst := old(files)[src]]
    {
      files := (files - {src})[dst := files[src]];
    }

    /** WriteFile. tmp is the unused name that os.CreateTemp picks; sha is SHA-256 in hex. */
    method WriteFile(path: Path, max: int, items: seq<Item>, sha: bytes -> Digest, tmp: Path, fault: Fault)
      returns (a: Answer)
      requires tmp !in files
      modifies this
      ensures var d := Drain(items, max, []);
        && (Success(a) ==> d.Complete? && files == old(files)[path := d.content]
                           && a.complete == FileComplete(|d.content|, sha(d.content), ErrNone))
        && (!Success(a) ==> files == old(files))
        && (fault == NoFault && d.Complete? ==> Success(a))
        && (fault == NoFault && !d.Complete? ==> a == Refusal(d))
        && (fault.WriteFails? && !WritesAt(items, max, fault.at) && !d.Complete? ==> a == Refusal(d))
        && (d.Complete? && fault == CloseFails ==> a == Failure(|d.content|, CloseFailed))
        && (d.Complete? && fault == ChmodFails ==> a == Failure(|d.content|, ChmodFailed))
        && (d.Complete? && fault == RenameFails ==> a == Failure(|d.content|, RenameFailed))
      ensures a.complete.err == WriteFailed <==> fault.WriteFails? && WritesAt(items, max, fault.at)
      ensures a.cancelled ==> Drain(items, max, []) == Cancelled
      ensures fault == NoFault ==>
                match Drain(items, max, [])
                case Cancelled => a.cancelled
                case SourceError(n) => a == Answer(FileComplete(n, "", SourceErr), false)
                case TooBig(n) => a == Answer(FileComplete(n, "", ExceedsMaxSize), false)
                case Complete(_) => !a.cancelled
      ensures fault == CreateFails ==> a == Failure(0, TmpCreateFailed)
      ensures max >= 0 && fault == NoFault ==> forall content :: WellCut(items, content) ==>
                if |content| <= max
                then Success(a) && files == old(files)[path := content]
                     && a.complete == FileComplete(|content|, sha(content), ErrNone)
                else a.complete.err == ExceedsMaxSize && files == old(files)
    {
      if max >= 0 {
        forall content | WellCut(items, content)
          ensures |content| <= max ==> Drain(items, max, []) == Complete(content)
          ensures |content| > max ==> Drain(items, max, []).TooBig?
        {
          WellCutCompletes(items, content, max);
        }
      }
      if fault == CreateFails {
        return Failure(0, TmpCreateFailed);
      }
      files := files[tmp := []];
      var stop, hashed := Receive(tmp, items, max, fault);
      match stop {
        case WriteStopped =>
          Remove(tmp);
          return Failure(|hashed|, WriteFailed);
        case Refused(r) =>
          Remove(tmp);
          return Refusal(r);
        case Eof =>
      }
      if fault == CloseFails {
        Remove(tmp);
        return Failure(|hashed|, CloseFailed);
      }
      if fault == ChmodFails {
        Remove(tmp);
        return Failure(|hashed|, ChmodFailed);
      }
      if fault == RenameFails {
        Remove(tmp);
        return Failure(|hashed|, RenameFailed);
      }
      Rename(tmp, path);
      return Answer(FileComplete(|hashed|, sha(hashed), ErrNone), false);
    }

    /** UploadChunks followed by finalizeUpload. An empty expected digest and a size of at most 0
        switch the checks off. */
    method UploadChunks(path: Path, expectedSize: int, expectedSha: Digest, items: seq<Item>,
                        sha: bytes -> Digest, tmp: Path, fault: Fault) returns (a: Answer)
      requires tmp !in files
      modifies this
      ensures var d := Drain(items, UPLOAD_MAX_BYTES, []);
        && (Success(a) ==> d.Complete? && files == old(files)[path := d.content]
                           && a.complete == FileComplete(|d.content|, sha(d.content), ErrNone))
        && (!Success(a) ==> files == old(files))
        && (fault == NoFault && !d.Complete? ==> a == Refusal(d))
        && (fault.WriteFails? && !WritesAt(items, UPLOAD_MAX_BYTES, fault.at) && !d.Complete? ==> a == Refusal(d))
        && (d.Complete? && fault == SyncFails ==> a == Failure(|d.content|, WriteFailed))
        && (d.Complete? && fault == CloseFails ==> a == Failure(|d.content|, CloseFailed))
        && (d.Complete? && (fault == NoFault || fault == RenameFails) ==>
              if expectedSha != "" && sha(d.content) != expectedSha then a == Failure(|d.content|, Sha256Mismatch)
              else if expectedSize > 0 && |d.content| != expectedSize then a == Failure(|d.content|, SizeMismatch)
              else if fault == RenameFails then a == Failure(|d.content|, RenameFailed)
              else Success(a))
      ensures Success(a) && expectedSha != "" ==> sha(files[path]) == expectedSha
      ensures Success(a) && expectedSize > 0 ==> |files[path]| == expectedSize
      ensures a.cancelled ==> Drain(items, UPLOAD_MAX_BYTES, []) == Cancelled
      ensures fault == NoFault ==>
                match Drain(items, UPLOAD_MAX_BYTES, [])
                case Cancelled => a.cancelled
                case SourceError(n) => a == Answer(FileComplete(n, "", SourceErr), false)
                case TooBig(n) => a == Answer(FileComplete(n, "", ExceedsMaxSize), false)
                case Complete(_) => !a.cancelled
      ensures fault == CreateFails ==> a == Failure(0, TmpCreateFailed)
      ensures fault.WriteFails? && WritesAt(items, UPLOAD_MAX_BYTES, fault.at) ==> a.complete.err == WriteFailed
      ensures fault == NoFault ==> forall content :: WellCut(items, content) ==>
                UploadDecides(path, content, expectedSize, expectedSha, sha, old(files), files, a)
    {
      forall content | WellCut(items, content)
        ensures |content| <= UPLOAD_MAX_BYTES ==> Drain(items, UPLOAD_MAX_BYTES, []) == Complete(content)
        ensures |content| > UPLOAD_MAX_BYTES ==> Drain(items, UPLOAD_MAX_BYTES, []).TooBig?
      {
        WellCutCompletes(items, content, UPLOAD_MAX_BYTES);
      }
      if fault == CreateFails {
        return Failure(0, TmpCreateFailed);
      }
      files := files[tmp := []];
      var stop, hashed := Receive(tmp, items, UPLOAD_MAX_BYTES, fault);
      match stop {
        case WriteStopped =>
          Remove(tmp);
          return Failure(|hashed|, WriteFailed);
        case Refused(r) =>
          Remove(tmp);
          return Refusal(r);
        case Eof =>
      }
      if fault == SyncFails {
        Remove(tmp);
        return Failure(|hashed|, WriteFailed);
      }
      if fault == CloseFails {
        Remove(tmp);
        return Failure(|hashed|, CloseFailed);
      }
      if expectedSha != "" && sha(hashed) != expectedSha {
        Remove(tmp);
        return Failure(|hashed|, Sha256Mismatch);
      }
      if expectedSize > 0 && expectedSize != |hashed| {
        Remove(tmp);
        return Failure(|hashed|, SizeMismatch);
      }
      if fault == RenameFails {
        Remove(tmp);
        return Failure(|hashed|, RenameFailed);
      }
      Rename(tmp, path);
      return Answer(FileComplete(|hashed|, sha(hashed), ErrNone), false);
    }
  }

  const UPLOAD_MAX_BYTES := 0x4000_0000

  // What an upload of a well-cut file must come to when nothing fails: put in place with its own digest
  // and size, or the code of the first check it does not meet and no change.
  ghost predicate UploadDecides(path: Path, content: bytes, expectedSize: int, expectedSha: Digest, sha: bytes -> Digest,
                                before: map<Path, bytes>, after: map<Path, bytes>, a: Answer) {
    if |content| > 0x4000_0000 then a.complete.err == ExceedsMaxSize && after == before
    else if expectedSha != "" && expectedSha != sha(content) then a == Failure(|content|, Sha256Mismatch) && after == before
    else if expectedSize > 0 && expectedSize != |content| then a == Failure(|content|, SizeMismatch) && after == before
    else after == before[path := content] && a == Answer(FileComplete(|content|, sha(content), ErrNone), false)
  }
}
