/** Replacing a string in a file (internal/tools/editfile.go): match counting, line numbers and the
    rewrite, against the leftmost non-overlapping occurrences. */
module EditFile {
  import opened Bytes
  import opened Transfer

  // ---------- occurrences ----------

  predicate At(body: bytes, needle: bytes, i: nat) {
    i + |needle| <= |body| && body[i..i + |needle|] == needle
  }

  // strings.Index from an offset; |body| + 1 stands for -1.
  function Index(body: bytes, needle: bytes, from: nat): (i: nat)
    ensures from <= i
    ensures i <= |body| ==> At(body, needle, i)
    ensures forall j :: from <= j < i ==> !At(body, needle, j)
    decreases |body| - from
  {
    if from > |body| || At(body, needle, from) then from
    else Index(body, needle, from + 1)
  }

  // The leftmost non-overlapping occurrences from an offset on.
  function Occurrences(body: bytes, needle: bytes, from: nat): (occ: seq<nat>)
    requires needle != []
    decreases |body| - from
  {
    var i := Index(body, needle, from);
    if i > |body| then [] else [i] + Occurrences(body, needle, i + |needle|)
  }

  // strings.Count, for a needle that is not empty.
  function Count(body: bytes, needle: bytes): nat
    requires needle != []
  {
    |Occurrences(body, needle, 0)|
  }

  // Occurrences that start at or after from and do not overlap.
  ghost predicate Apart(body: bytes, needle: bytes, from: nat, occ: seq<nat>) {
    && (forall k :: 0 <= k < |occ| ==> occ[k] >= from && At(body, needle, occ[k]))
    && (forall k :: 0 < k < |occ| ==> occ[k] >= occ[k - 1] + |needle|)
  }

  ghost predicate Gap(body: bytes, needle: bytes, low: nat, high: nat) {
    forall j :: low <= j < high ==> !At(body, needle, j)
  }

  // Where the k-th of some occurrences may start at the earliest.
  function Earliest(needle: bytes, from: nat, occ: seq<nat>, k: nat): nat
    requires k <= |occ|
  {
    if k == 0 then from else occ[k - 1] + |needle|
  }

  // Nothing starts between one of them and the next, nor after the last.
  ghost predicate Leftmost(body: bytes, needle: bytes, from: nat, occ: seq<nat>) {
    forall k :: 0 <= k <= |occ| ==>
      Gap(body, needle, Earliest(needle, from, occ, k), if k < |occ| then occ[k] else |body| + 1)
  }

  lemma {:induction false} OccurrencesAreApart(body: bytes, needle: bytes, from: nat)
    requires needle != []
    ensures Apart(body, needle, from, Occurrences(body, needle, from))
    decreases |body| - from
  {
    var i := Index(body, needle, from);
    if i <= |body| {
      OccurrencesAreApart(body, needle, i + |needle|);
    }
  }

  lemma {:induction false} OccurrencesAreLeftmost(body: bytes, needle: bytes, from: nat)
    requires needle != []
    ensures Leftmost(body, needle, from, Occurrences(body, needle, from))
    decreases |body| - from
  {
    var i := Index(body, needle, from);
    if i <= |body| {
      var rest := Occurrences(body, needle, i + |needle|);
      OccurrencesAreLeftmost(body, needle, i + |needle|);
      PrependLeftmost(body, needle, from, i, rest);
    }
  }

  lemma PrependLeftmost(body: bytes, needle: bytes, from: nat, i: nat, rest: seq<nat>)
    requires Gap(body, needle, from, i) && Leftmost(body, needle, i + |needle|, rest)
    ensures Leftmost(body, needle, from, [i] + rest)
  {
    var occ := [i] + rest;
    forall k | 0 <= k <= |occ|
      ensures Gap(body, needle, Earliest(needle, from, occ, k), if k < |occ| then occ[k] else |body| + 1)
    {
      if k > 0 {
        assert Earliest(needle, from, occ, k) == Earliest(needle, i + |needle|, rest, k - 1);
      }
    }
  }

  lemma FirstOccurrence(body: bytes, needle: bytes, from: nat)
    requires needle != [] && Index(body, needle, from) <= |body|
    ensures |Occurrences(body, needle, from)| == 1 + |Occurrences(body, needle, Index(body, needle, from) + |needle|)|
  {
  }

  /** The count is the greatest possible: no other choice of occurrences that do not overlap has more. */
  lemma {:induction false} CountIsMaximal(body: bytes, needle: bytes, from: nat, other: seq<nat>)
    requires needle != [] && Apart(body, needle, from, other)
    ensures |other| <= |Occurrences(body, needle, from)|
    decreases |body| - from
  {
    if other != [] {
      RestIsApart(body, needle, from, other);
      FirstOccurrence(body, needle, from);
      CountIsMaximal(body, needle, Index(body, needle, from) + |needle|, other[1..]);
    }
  }

  // The first match ends no later than the first of any other choice.
  lemma RestIsApart(body: bytes, needle: bytes, from: nat, other: seq<nat>)
    requires needle != [] && Apart(body, needle, from, other) && other != []
    ensures Index(body, needle, from) <= |body|
    ensures Apart(body, needle, Index(body, needle, from) + |needle|, other[1..])
  {
    assert At(body, needle, other[0]);
    forall k | 1 <= k < |other|
      ensures other[k] >= Index(body, needle, from) + |needle|
    {
      Increasing(body, needle, from, other, 0, k);
    }
  }

  lemma {:induction false} Increasing(body: bytes, needle: bytes, from: nat, occ: seq<nat>, i: nat, j: nat)
    requires Apart(body, needle, from, occ) && i < j < |occ|
    ensures occ[j] >= occ[i] + |needle|
    decreases j
  {
    if i < j - 1 {
      Increasing(body, needle, from, occ, i, j - 1);
    }
  }

  // ---------- line numbers ----------

  // The line on which an offset lies, counted from 1.
  function LineAt(body: bytes, i: nat): nat
    requires i <= |body|
  {
    1 + Newlines(body[..i])
  }

  lemma NoneAtTheEnd(body: bytes, needle: bytes, offset: nat)
    requires needle != [] && (offset >= |body| || Index(body, needle, offset) > |body|)
    ensures Occurrences(body, needle, offset) == []
  {
  }

  // The lines of the given offsets.
  ghost predicate AreLines(body: bytes, occ: seq<nat>, lines: seq<nat>) {
    |lines| <= |occ| && forall k :: 0 <= k < |lines| ==> occ[k] <= |body| && lines[k] == LineAt(body, occ[k])
  }

  // What remains to be found after the lines found so far.
  ghost predicate Remain(body: bytes, needle: bytes, offset: nat, occ: seq<nat>, n: nat)
    requires needle != []
  {
    n <= |occ| && occ[n..] == Occurrences(body, needle, offset)
  }

  lemma NextLine(body: bytes, needle: bytes, offset: nat, occ: seq<nat>, lines: seq<nat>, i: nat)
    requires needle != [] && AreLines(body, occ, lines) && Remain(body, needle, offset, occ, |lines|)
    requires i == Index(body, needle, offset) <= |body|
    ensures AreLines(body, occ, lines + [LineAt(body, i)])
    ensures Remain(body, needle, i + |needle|, occ, |lines + [LineAt(body, i)]|)
  {
    var n := |lines|;
    assert occ[n..][0] == occ[n] && occ[n..][1..] == occ[n + 1..];
  }

  lemma LinesIncrease(body: bytes, needle: bytes, lines: seq<nat>, j: nat, k: nat)
    requires needle != [] && j < k < |lines| && AreLines(body, Occurrences(body, needle, 0), lines)
    ensures lines[j] <= lines[k]
  {
    var occ := Occurrences(body, needle, 0);
    OccurrencesAreApart(body, needle, 0);
    Increasing(body, needle, 0, occ, j, k);
    NewlinesOfPrefix(body, occ[j], occ[k]);
  }

  /** One entry per leftmost non-overlapping occurrence, its line, in nondecreasing order. */
  method MatchLines(body: bytes, needle: bytes) returns (lines: seq<nat>)
    ensures needle == [] ==> lines == []
    ensures needle != [] ==>
              var occ := Occurrences(body, needle, 0);
              && |lines| == |occ|
              && (forall k :: 0 <= k < |lines| ==> occ[k] <= |body| && lines[k] == 1 + Newlines(body[..occ[k]]))
              && (forall j, k :: 0 <= j < k < |lines| ==> lines[j] <= lines[k])
  {
    lines := [];
    if needle == [] {
      return;
    }
    ghost var occ := Occurrences(body, needle, 0);
    var offset := 0;
    while offset < |body|
      invariant AreLines(body, occ, lines) && Remain(body, needle, offset, occ, |lines|)
      decreases |body| + |needle| - offset
    {
      var i := Index(body, needle, offset);
      if i > |body| {
        break;
      }
      NextLine(body, needle, offset, occ, lines, i);
      lines := lines + [LineAt(body, i)];
      offset := i + |needle|;
    }
    NoneAtTheEnd(body, needle, offset);
    assert |occ[|lines|..]| == 0;
    forall j, k | 0 <= j < k < |lines|
      ensures lines[j] <= lines[k]
    {
      LinesIncrease(body, needle, lines, j, k);
    }
  }

  // ---------- replacing ----------

  // The pieces of the body between the first n leftmost occurrences.
  function Pieces(body: bytes, needle: bytes, from: nat, n: nat): (ps: seq<bytes>)
    requires needle != [] && from <= |body|
    ensures ps != []
    decreases n
  {
    var i := Index(body, needle, from);
    if n == 0 || i > |body| then [body[from..]]
    else [body[from..i]] + Pieces(body, needle, i + |needle|, n - 1)
  }

  function Join(pieces: seq<bytes>, sep: bytes): bytes
    requires pieces != []
  {
    if |pieces| == 1 then pieces[0] else pieces[0] + sep + Join(pieces[1..], sep)
  }

  // strings.Replace with a count of n, and strings.ReplaceAll when n is at least the count.
  function Replace(body: bytes, needle: bytes, new_: bytes, n: nat): bytes
    requires needle != []
  {
    Join(Pieces(body, needle, 0, n), new_)
  }

  lemma {:induction false} PiecesJoin(body: bytes, needle: bytes, from: nat, n: nat)
    requires needle != [] && from <= |body|
    ensures Join(Pieces(body, needle, from, n), needle) == body[from..]
    decreases n
  {
    var i := Index(body, needle, from);
    if n > 0 && i <= |body| {
      PiecesJoin(body, needle, i + |needle|, n - 1);
      JoinCons(body[from..i], Pieces(body, needle, i + |needle|, n - 1), needle);
      CutsInThree(body, from, i, i + |needle|);
    }
  }

  lemma JoinCons(p: bytes, rest: seq<bytes>, sep: bytes)
    requires rest != []
    ensures Join([p] + rest, sep) == p + sep + Join(rest, sep)
  {
    assert ([p] + rest)[1..] == rest;
  }

  lemma CutsInThree(s: bytes, i: nat, j: nat, k: nat)
    requires i <= j <= k <= |s|
    ensures s[i..j] + s[j..k] + s[k..] == s[i..]
  {
  }

  function Min(a: nat, b: nat): nat {
    if a < b then a else b
  }

  lemma {:induction false} PiecesCount(body: bytes, needle: bytes, from: nat, n: nat)
    requires needle != [] && from <= |body|
    ensures |Pieces(body, needle, from, n)| == 1 + Min(n, |Occurrences(body, needle, from)|)
    decreases n
  {
    var i := Index(body, needle, from);
    if n > 0 && i <= |body| {
      PiecesCount(body, needle, i + |needle|, n - 1);
    }
  }

  function Total(pieces: seq<bytes>): nat {
    if pieces == [] then 0 else |pieces[0]| + Total(pieces[1..])
  }

  lemma {:induction false} JoinLength(pieces: seq<bytes>, sep: bytes)
    requires pieces != []
    ensures |Join(pieces, sep)| == Total(pieces) + (|pieces| - 1) * |sep|
    decreases |pieces|
  {
    if |pieces| > 1 {
      JoinLength(pieces[1..], sep);
      assert (|pieces| - 1) * |sep| == |sep| + (|pieces| - 2) * |sep|;
    }
  }

  /** What a replacement is: the body cut at its first leftmost occurrences, put together again with the
      new string in their place. Putting the old one back gives the body, and the length follows. */
  lemma ReplaceIsExact(body: bytes, needle: bytes, new_: bytes, n: nat)
    requires needle != []
    ensures Replace(body, needle, needle, n) == body
    ensures |Replace(body, needle, new_, n)| == |body| + Min(n, Count(body, needle)) * (|new_| - |needle|)
  {
    var ps, m := Pieces(body, needle, 0, n), Min(n, Count(body, needle));
    PiecesJoin(body, needle, 0, n);
    assert body[0..] == body;
    PiecesCount(body, needle, 0, n);
    JoinLength(ps, needle);
    JoinLength(ps, new_);
    assert m * |new_| - m * |needle| == m * (|new_| - |needle|);
  }

  ghost predicate Free(s: bytes, needle: bytes) {
    forall j: nat :: !At(s, needle, j)
  }

  /** Replacing all leaves no piece that still holds the old string. */
  lemma {:induction false} PiecesAreFree(body: bytes, needle: bytes, from: nat, n: nat)
    requires needle != [] && from <= |body| && n >= |Occurrences(body, needle, from)|
    ensures forall p :: p in Pieces(body, needle, from, n) ==> Free(p, needle)
    decreases n
  {
    var i := Index(body, needle, from);
    if i <= |body| {
      PiecesAreFree(body, needle, i + |needle|, n - 1);
      SliceIsFree(body, needle, from, i);
    } else {
      assert body[from..] == body[from..|body|];
      SliceIsFree(body, needle, from, |body|);
    }
  }

  lemma SliceIsFree(body: bytes, needle: bytes, low: nat, high: nat)
    requires low <= high <= |body| && Gap(body, needle, low, high) && needle != []
    ensures Free(body[low..high], needle)
  {
    forall j: nat | j + |needle| <= high - low
      ensures !At(body[low..high], needle, j)
    {
      SliceOfSlice(body, low, high, j, j + |needle|);
      assert !At(body, needle, low + j);
    }
  }

  /** A single replacement, in place. */
  lemma ReplaceOnce(body: bytes, needle: bytes, new_: bytes)
    requires needle != [] && Count(body, needle) > 0
    ensures var i := Occurrences(body, needle, 0)[0];
      && At(body, needle, i) && Gap(body, needle, 0, i)
      && Replace(body, needle, new_, 1) == body[..i] + new_ + body[i + |needle|..]
  {
    var i := Index(body, needle, 0);
    var rest := body[i + |needle|..];
    assert Pieces(body, needle, i + |needle|, 0) == [rest];
    var ps := [body[0..i]] + [rest];
    assert Pieces(body, needle, 0, 1) == ps;
    assert ps[1..] == [rest] && ps[0] == body[..i];
    assert Join(ps, new_) == ps[0] + new_ + Join(ps[1..], new_);
  }

  // ---------- exactly one occurrence ----------

  ghost predicate OccursOnce(body: bytes, needle: bytes) {
    exists i: nat :: At(body, needle, i) && forall j: nat :: At(body, needle, j) ==> j == i
  }

  predicate Overlaps(needle: bytes, b: nat) {
    0 < b < |needle| && needle[b..] == needle[..|needle| - b]
  }

  lemma OverlapFromTwo(body: bytes, needle: bytes, i: nat, j: nat)
    requires i < j < i + |needle| && At(body, needle, i) && At(body, needle, j)
    ensures Overlaps(needle, j - i)
  {
    var b := j - i;
    assert needle[b..] == body[i..i + |needle|][b..] == body[j..i + |needle|];
    assert needle[..|needle| - b] == body[j..j + |needle|][..|needle| - b] == body[j..i + |needle|];
  }

  lemma SecondIsLater(body: bytes, needle: bytes)
    requires needle != []
    ensures var occ := Occurrences(body, needle, 0);
      && (|occ| > 0 ==> occ[0] == Index(body, needle, 0))
      && (|occ| > 1 ==> At(body, needle, occ[1]) && occ[1] >= occ[0] + |needle|)
  {
    OccurrencesAreApart(body, needle, 0);
  }

  lemma OnceCountsOne(body: bytes, needle: bytes)
    requires needle != [] && OccursOnce(body, needle)
    ensures Count(body, needle) == 1
  {
    var i: nat :| At(body, needle, i) && forall j: nat :: At(body, needle, j) ==> j == i;
    SecondIsLater(body, needle);
    assert Index(body, needle, 0) == i;
  }

  ghost predicate CountsRight(body: bytes, needle: bytes)
    requires needle != []
  {
    Count(body, needle) == 1 <==> OccursOnce(body, needle)
  }

  ghost predicate AlwaysRight(needle: bytes)
    requires needle != []
  {
    forall body :: CountsRight(body, needle)
  }

  /** The documentation promises that without replace_all exactly one occurrence must match. The count
      is of occurrences that do not overlap, so a count of 1 means that for every body if and only if
      the old string does not overlap itself. */
  lemma CountOneMeansOnce(needle: bytes)
    requires needle != []
    ensures AlwaysRight(needle) <==> forall b :: !Overlaps(needle, b)
  {
    if AlwaysRight(needle) {
      forall b
        ensures !Overlaps(needle, b)
      {
        if Overlaps(needle, b) {
          WrongForOverlap(needle, b);
        }
      }
    }
    if forall b :: !Overlaps(needle, b) {
      forall body
        ensures CountsRight(body, needle)
      {
        CountsRightWithoutOverlap(body, needle);
      }
    }
  }

  lemma WrongForOverlap(needle: bytes, b: nat)
    requires Overlaps(needle, b)
    ensures !AlwaysRight(needle)
  {
    var body := OverlappingPair(needle, b);
    assert !CountsRight(body, needle);
  }

  lemma CountsRightWithoutOverlap(body: bytes, needle: bytes)
    requires needle != [] && forall b :: !Overlaps(needle, b)
    ensures CountsRight(body, needle)
  {
    if OccursOnce(body, needle) {
      OnceCountsOne(body, needle);
    } else if Count(body, needle) == 1 {
      NoOverlapNoSecond(body, needle);
    }
  }

  lemma NoOverlapNoSecond(body: bytes, needle: bytes)
    requires needle != [] && Count(body, needle) == 1 && forall b :: !Overlaps(needle, b)
    ensures OccursOnce(body, needle)
  {
    var occ := Occurrences(body, needle, 0);
    var i := occ[0];
    OccurrencesAreApart(body, needle, 0);
    OccurrencesAreLeftmost(body, needle, 0);
    assert Gap(body, needle, Earliest(needle, 0, occ, 0), occ[0]);
    assert Gap(body, needle, Earliest(needle, 0, occ, 1), |body| + 1);
    assert At(body, needle, i);
    forall j: nat | At(body, needle, j)
      ensures j == i
    {
      if i < j < i + |needle| {
        OverlapFromTwo(body, needle, i, j);
      }
    }
  }

  // The shortest body in which a string overlaps itself: it occurs at 0 and at b, but counts once.
  lemma OverlappingPair(needle: bytes, b: nat) returns (body: bytes)
    requires Overlaps(needle, b)
    ensures At(body, needle, 0) && At(body, needle, b) && |body| == |needle| + b
    ensures !CountsRight(body, needle) && Count(body, needle) == 1
  {
    body := needle + needle[|needle| - b..];
    assert body[0..|needle|] == needle;
    assert body[b..b + |needle|] == needle[b..] + needle[|needle| - b..];
    assert needle == needle[..|needle| - b] + needle[|needle| - b..];
    assert At(body, needle, 0) && At(body, needle, b);
    SecondIsLater(body, needle);
    assert Index(body, needle, 0) == 0;
  }

  // ---------- the edit ----------

  datatype Request = Request(path: Path, old_: bytes, new_: bytes, all: bool)

  // The first operation that fails, if any; a failing backup does not stop the edit.
  datatype Trouble = NoTrouble | StatFails | Unopenable | ReadFails | CancelledBefore | BackupFails
                   | TempFails | TempWriteFails | TempSyncFails | TempCloseFails | TempRenameFails

  // A backup as Glob and Stat report it.
  datatype Backup = Backup(name: Path, modified: int)

  const BACKUP_RETAIN_COUNT := 5

  // Whether the body is to be edited, and otherwise the error code.
  function Verdict(body: bytes, req: Request, maxBytes: nat): Err
    requires req.old_ != []
  {
    if |body| > maxBytes then ExceedsMaxSize
    else if Count(body, req.old_) == 0 then OldStringNotFound
    else if Count(body, req.old_) > 1 && !req.all then AmbiguousMatch
    else ErrNone
  }

  // The answer of an edit in which an operation may fail: the first of its checks and operations that
  // does not go well decides.
  function EditErr(files: map<Path, bytes>, req: Request, maxBytes: nat, trouble: Trouble): Err {
    if req.old_ == [] then BadPayload
    else if trouble == StatFails then OpenFailed
    else if req.path !in files then NotFound
    else if |files[req.path]| > maxBytes then ExceedsMaxSize
    else if trouble == Unopenable then OpenFailed
    else if trouble == ReadFails then ReadFailed
    else if trouble == CancelledBefore then ErrNone
    else if Verdict(files[req.path], req, maxBytes) != ErrNone then Verdict(files[req.path], req, maxBytes)
    else RewriteErr(trouble)
  }

  function RewriteErr(trouble: Trouble): Err {
    match trouble
    case TempFails => TmpCreateFailed
    case TempWriteFails => WriteFailed
    case TempSyncFails => WriteFailed
    case TempCloseFails => CloseFailed
    case TempRenameFails => RenameFailed
    case _ => ErrNone
  }

  function Edited(body: bytes, req: Request): bytes
    requires req.old_ != []
  {
    Replace(body, req.old_, req.new_, if req.all then Count(body, req.old_) else 1)
  }

  function Names(bs: seq<Backup>): set<Path> {
    set b | b in bs :: b.name
  }

  ghost predicate NewestFirst(bs: seq<Backup>) {
    forall i, j :: 0 <= i < j < |bs| ==> bs[i].modified >= bs[j].modified
  }

  function Inserted(b: Backup, bs: seq<Backup>): seq<Backup> {
    if bs == [] || bs[0].modified < b.modified then [b] + bs else [bs[0]] + Inserted(b, bs[1..])
  }

  // sort.Slice with the newest first.
  function Sorted(found: seq<Backup>): seq<Backup> {
    if found == [] then [] else Inserted(found[0], Sorted(found[1..]))
  }

  lemma {:induction false} InsertedKeepsAll(b: Backup, bs: seq<Backup>)
    ensures multiset(Inserted(b, bs)) == multiset(bs) + multiset{b}
    decreases |bs|
  {
    if bs != [] {
      assert bs == [bs[0]] + bs[1..];
      InsertedKeepsAll(b, bs[1..]);
    }
  }

  lemma {:induction false} InsertedMembers(b: Backup, bs: seq<Backup>)
    ensures forall x :: x in Inserted(b, bs) ==> x == b || x in bs
    decreases |bs|
  {
    if bs != [] {
      InsertedMembers(b, bs[1..]);
    }
  }

  lemma {:induction false} InsertedKeepsOrder(b: Backup, bs: seq<Backup>)
    requires NewestFirst(bs)
    ensures NewestFirst(Inserted(b, bs))
    decreases |bs|
  {
    if bs != [] && bs[0].modified >= b.modified {
      InsertedKeepsOrder(b, bs[1..]);
      InsertedMembers(b, bs[1..]);
      NewestInFront(bs[0], Inserted(b, bs[1..]));
    }
  }

  lemma NewestInFront(x: Backup, bs: seq<Backup>)
    requires NewestFirst(bs) && forall y :: y in bs ==> x.modified >= y.modified
    ensures NewestFirst([x] + bs)
  {
  }

  lemma {:induction false} SortsNewestFirst(found: seq<Backup>)
    ensures multiset(Sorted(found)) == multiset(found) && NewestFirst(Sorted(found))
    decreases |found|
  {
    if found != [] {
      assert found == [found[0]] + found[1..];
      SortsNewestFirst(found[1..]);
      InsertedKeepsOrder(found[0], Sorted(found[1..]));
      InsertedKeepsAll(found[0], Sorted(found[1..]));
    }
  }

  class Editor {
    var files: map<Path, bytes>

    constructor (files: map<Path, bytes>)
      ensures this.files == files
    {
      this.files := files;
    }

    /** pruneOldBackups: the newest keep backups stay, the others go. */
    method PruneOldBackups(found: seq<Backup>, keep: int) returns (kept: seq<Backup>, gone: seq<Backup>)
      modifies this
      ensures multiset(kept + gone) == multiset(found)
      ensures keep > 0 ==> |kept| == if |found| <= keep then |found| else keep
      ensures keep <= 0 ==> gone == []
      ensures forall k, g :: k in kept && g in gone ==> k.modified >= g.modified
      ensures files == old(files) - Names(gone)
    {
      if keep <= 0 || |found| <= keep {
        assert found + [] == found && Names([]) == {};
        return found, [];
      }
      var entries := Sorted(found);
      SortsNewestFirst(found);
      assert |entries| == |multiset(entries)| == |found|;
      kept, gone := entries[..keep], entries[keep..];
      RemoveAll(gone);
      assert kept + gone == entries;
    }

    method RemoveAll(gone: seq<Backup>)
      modifies this
      ensures files == old(files) - Names(gone)
    {
      for i := 0 to |gone|
        invariant files == old(files) - Names(gone[..i])
      {
        assert Names(gone[..i + 1]) == Names(gone[..i]) + {gone[i].name};
        files := files - {gone[i].name};
      }
      assert gone[..|gone|] == gone;
    }

    /** EditFile. bak and tmp are the names it makes up, found is what Glob reports after the rename.
        Every error leaves the file as it was; a success replaces exactly what it should. */
    method EditFile(req: Request, maxBytes: nat, sha: bytes -> Digest, trouble: Trouble, bak: Path, tmp: Path,
                    found: seq<Backup>) returns (a: Answer)
      requires tmp !in files && bak != req.path && tmp != req.path && tmp != bak
      requires req.path !in Names(found)
      modifies this
      ensures !Success(a) ==> forall p :: p != bak ==> Untouched(p, old(files), files)
      ensures Success(a) ==>
                && req.old_ != [] && req.path in old(files) && Verdict(old(files)[req.path], req, maxBytes) == ErrNone
                && req.path in files && files[req.path] == Edited(old(files)[req.path], req)
                && a.complete == FileComplete(|files[req.path]|, sha(files[req.path]), ErrNone)
                && forall p :: p != bak && p != req.path && p !in Names(found) ==> Untouched(p, old(files), files)
      ensures Success(a) <==>
                && (trouble == NoTrouble || trouble == BackupFails) && req.old_ != [] && req.path in old(files)
                && |old(files)[req.path]| <= maxBytes
                && (Count(old(files)[req.path], req.old_) == 1 || (Count(old(files)[req.path], req.old_) > 1 && req.all))
      ensures Success(a) && req.all ==>
                files[req.path] == Replace(old(files)[req.path], req.old_, req.new_, Count(old(files)[req.path], req.old_))
      ensures Success(a) && !req.all ==> files[req.path] == Replace(old(files)[req.path], req.old_, req.new_, 1)
      ensures trouble == NoTrouble && !Success(a) ==>
                a.complete.err == if req.old_ == [] then BadPayload
                                  else if req.path !in old(files) then NotFound
                                  else if |old(files)[req.path]| > maxBytes then ExceedsMaxSize
                                  else if Count(old(files)[req.path], req.old_) == 0 then OldStringNotFound
                                  else AmbiguousMatch
      ensures a.complete.err == EditErr(old(files), req, maxBytes, trouble)
      ensures a.cancelled <==> trouble == CancelledBefore && req.old_ != [] && req.path in old(files)
                               && |old(files)[req.path]| <= maxBytes
    {
      if req.old_ == [] {
        return Failure(0, BadPayload);
      }
      if trouble == StatFails {
        return Failure(0, OpenFailed);
      }
      if req.path !in files {
        return Failure(0, NotFound);
      }
      var body := files[req.path];
      if |body| > maxBytes {
        return Failure(|body|, ExceedsMaxSize);
      }
      if trouble == Unopenable {
        return Failure(0, OpenFailed);
      }
      if trouble == ReadFails {
        return Failure(0, ReadFailed);
      }
      if trouble == CancelledBefore {
        return Answer(FileComplete(0, "", ErrNone), true);
      }
      var count := Count(body, req.old_);
      if count == 0 {
        return Failure(0, OldStringNotFound);
      }
      if count > 1 && !req.all {
        return Failure(0, AmbiguousMatch);
      }
      var next := Replace(body, req.old_, req.new_, if req.all then count else 1);
      a := Apply(req.path, body, next, sha, trouble, bak, tmp, found);
    }

    // From the backup on.
    method Apply(path: Path, body: bytes, next: bytes, sha: bytes -> Digest, trouble: Trouble, bak: Path, tmp: Path,
                 found: seq<Backup>) returns (a: Answer)
      requires tmp !in files && bak != path && tmp != path && tmp != bak && path !in Names(found) && path in files
      modifies this
      ensures !a.cancelled && a.complete.err == RewriteErr(trouble)
      ensures a.complete.err != ErrNone ==> forall p :: p != bak ==> Untouched(p, old(files), files)
      ensures a.complete.err == ErrNone ==>
                && path in files && files[path] == next && a.complete == FileComplete(|next|, sha(next), ErrNone)
                && forall p :: p != bak && p != path && p !in Names(found) ==> Untouched(p, old(files), files)
    {
      if |body| > 0 && trouble != BackupFails {
        files := files[bak := body];
      }
      a := Rewrite(path, next, trouble, tmp);
      if a.complete.err != ErrNone {
        return;
      }
      var kept, gone := PruneOldBackups(found, BACKUP_RETAIN_COUNT);
      assert forall g :: g in gone ==> g in multiset(kept + gone);
      assert forall g :: g in gone ==> g in found && g.name in Names(found);
      return Answer(FileComplete(|next|, sha(next), ErrNone), false);
    }

    // The atomic rewrite: a temporary file, synced, closed and renamed over the file.
    method Rewrite(path: Path, next: bytes, trouble: Trouble, tmp: Path) returns (a: Answer)
      requires tmp !in files && tmp != path
      modifies this
      ensures !a.cancelled
      ensures a.complete.err == ErrNone ==> files == old(files)[path := next]
      ensures a.complete.err != ErrNone ==> files == old(files)
      ensures a.complete.err == RewriteErr(trouble)
    {
      if trouble == TempFails {
        return Failure(0, TmpCreateFailed);
      }
      files := files[tmp := next];
      if trouble == TempWriteFails || trouble == TempSyncFails {
        files := files - {tmp};
        return Failure(0, WriteFailed);
      }
      if trouble == TempCloseFails {
        files := files - {tmp};
        return Failure(0, CloseFailed);
      }
      if trouble == TempRenameFails {
        files := files - {tmp};
        return Failure(0, RenameFailed);
      }
      files := (files - {tmp})[path := next];
      return Failure(0, ErrNone);
    }
  }

  predicate Untouched(p: Path, before: map<Path, bytes>, after: map<Path, bytes>) {
    (p in before <==> p in after) && (p in before ==> after[p] == before[p])
  }

  /** The length of an edited file, which no cap bounds. */
  lemma EditedLength(body: bytes, req: Request, maxBytes: nat)
    requires req.old_ != [] && Verdict(body, req, maxBytes) == ErrNone
    ensures |Edited(body, req)| == |body| + Count(body, req.old_) * (|req.new_| - |req.old_|)
  {
    ReplaceIsExact(body, req.old_, req.new_, if req.all then Count(body, req.old_) else 1);
  }
}
