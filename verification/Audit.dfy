/** The rotating audit log (internal/audit/writer.go) against the full history of its records. */
module Audit {
  import opened Bytes

  type Record = bytes

  function Flat(records: seq<Record>): bytes {
    if records == [] then [] else Flat(records[..|records| - 1]) + records[|records| - 1]
  }

  lemma FlatAppend(records: seq<Record>, r: Record)
    ensures Flat(records + [r]) == Flat(records) + r
  {
    assert (records + [r])[..|records|] == records;
  }

  // ---------- what is kept ----------

  // Generations of records, the active file first.
  type Generations = seq<seq<Record>>

  // From the oldest backup to the active file.
  function InOrder(gens: Generations): seq<Record> {
    if gens == [] then [] else InOrder(gens[1..]) + gens[0]
  }

  predicate Rotating(maxBytes: int, backups: int) {
    maxBytes > 0 && backups > 0
  }

  function Rotated(gens: Generations, backups: nat): Generations {
    if |gens| <= backups then [[]] + gens else [[]] + gens[..backups]
  }

  // The generations that the next record is written into.
  function MadeRoom(maxBytes: int, backups: int, gens: Generations, r: Record): (g: Generations)
    requires gens != []
    ensures g != []
  {
    if Rotating(maxBytes, backups) && |Flat(gens[0])| + |r| > maxBytes then Rotated(gens, backups) else gens
  }

  // One Append.
  function Appended(maxBytes: int, backups: int, gens: Generations, r: Record): (g: Generations)
    requires gens != []
    ensures g != []
  {
    var g := MadeRoom(maxBytes, backups, gens, r);
    [g[0] + [r]] + g[1..]
  }

  // After any number of Appends from fresh files.
  function Kept(maxBytes: int, backups: int, history: seq<Record>): (gens: Generations)
    ensures gens != []
  {
    if history == [] then [[]]
    else Appended(maxBytes, backups, Kept(maxBytes, backups, history[..|history| - 1]), history[|history| - 1])
  }

  ghost predicate IsSuffix(s: seq<Record>, history: seq<Record>) {
    |s| <= |history| && history[|history| - |s|..] == s
  }

  lemma {:induction false} InOrderOfPrefix(gens: Generations, n: nat)
    requires n <= |gens|
    ensures IsSuffix(InOrder(gens[..n]), InOrder(gens))
    decreases n
  {
    if n > 0 {
      InOrderOfPrefix(gens[1..], n - 1);
      assert gens[..n][1..] == gens[1..][..n - 1];
    }
  }

  lemma RoomIsSuffix(maxBytes: int, backups: int, gens: Generations, r: Record)
    requires gens != []
    ensures var g := MadeRoom(maxBytes, backups, gens, r);
      && IsSuffix(InOrder(g), InOrder(gens))
      && (|gens| <= backups || !Rotating(maxBytes, backups) ==> InOrder(g) == InOrder(gens))
  {
    var g := MadeRoom(maxBytes, backups, gens, r);
    if g != gens && |gens| <= backups {
      assert g[1..] == gens;
    } else if g != gens {
      assert g[1..] == gens[..backups];
      InOrderOfPrefix(gens, backups);
    }
  }

  lemma AppendedInOrder(maxBytes: int, backups: int, gens: Generations, r: Record)
    requires gens != []
    ensures InOrder(Appended(maxBytes, backups, gens, r)) == InOrder(MadeRoom(maxBytes, backups, gens, r)) + [r]
  {
    var g := MadeRoom(maxBytes, backups, gens, r);
    var t := Appended(maxBytes, backups, gens, r);
    assert t[1..] == g[1..];
    assert InOrder(g[1..]) + (g[0] + [r]) == InOrder(g[1..]) + g[0] + [r];
  }

  // A suffix stays one when both lists grow by the same record, and when the rest grows in front.
  lemma SuffixGrows(a: seq<Record>, b: seq<Record>, history: seq<Record>, r: Record)
    requires IsSuffix(a, b) && IsSuffix(b, history)
    ensures IsSuffix(a + [r], history + [r])
  {
    assert b[|b| - |a|..] == history[|history| - |b|..][|b| - |a|..];
    assert (history + [r])[|history| - |a|..] == history[|history| - |a|..] + [r];
  }

  ghost predicate KeepsSuffix(maxBytes: int, backups: int, gens: Generations, history: seq<Record>) {
    && gens != [] && IsSuffix(InOrder(gens), history)
    && (if Rotating(maxBytes, backups) then |gens| <= backups + 1 else |gens| == 1)
    && (|gens| <= backups || !Rotating(maxBytes, backups) ==> InOrder(gens) == history)
  }

  lemma SuffixStep(maxBytes: int, backups: int, gens: Generations, history: seq<Record>, r: Record)
    requires KeepsSuffix(maxBytes, backups, gens, history)
    ensures KeepsSuffix(maxBytes, backups, Appended(maxBytes, backups, gens, r), history + [r])
  {
    RoomIsSuffix(maxBytes, backups, gens, r);
    AppendedInOrder(maxBytes, backups, gens, r);
    SuffixGrows(InOrder(MadeRoom(maxBytes, backups, gens, r)), InOrder(gens), history, r);
  }

  lemma KeptSnoc(maxBytes: int, backups: int, history: seq<Record>, r: Record)
    ensures Kept(maxBytes, backups, history + [r]) == Appended(maxBytes, backups, Kept(maxBytes, backups, history), r)
  {
    assert (history + [r])[..|history|] == history;
  }

  lemma {:induction false} KeptIsSuffix(maxBytes: int, backups: int, history: seq<Record>)
    ensures KeepsSuffix(maxBytes, backups, Kept(maxBytes, backups, history), history)
    decreases |history|
  {
    if history == [] {
      assert InOrder([[]]) == [];
    } else {
      var init, r := history[..|history| - 1], history[|history| - 1];
      assert history == init + [r];
      KeptIsSuffix(maxBytes, backups, init);
      SuffixStep(maxBytes, backups, Kept(maxBytes, backups, init), init, r);
      KeptSnoc(maxBytes, backups, init, r);
    }
  }

  /** Backups and active file, oldest first, are a suffix of the history in whole records. With MaxBytes
      and MaxBackups both positive there are at most MaxBackups backups, and nothing is dropped before
      all of them are in use; otherwise the active file has it all. */
  lemma KeepsASuffix(maxBytes: int, backups: int, history: seq<Record>)
    ensures var gens := Kept(maxBytes, backups, history);
      && |InOrder(gens)| <= |history| && InOrder(gens) == history[|history| - |InOrder(gens)|..]
      && (maxBytes > 0 && backups > 0 ==> |gens| <= backups + 1 && (|gens| <= backups ==> InOrder(gens) == history))
      && (maxBytes <= 0 || backups <= 0 ==> gens == [history])
  {
    KeptIsSuffix(maxBytes, backups, history);
    var gens := Kept(maxBytes, backups, history);
    if maxBytes <= 0 || backups <= 0 {
      assert InOrder(gens[1..]) + gens[0] == gens[0];
    }
  }

  // A file over the limit holds a single record.
  predicate WithinLimit(maxBytes: int, g: seq<Record>) {
    |Flat(g)| <= maxBytes || |g| == 1
  }

  ghost predicate TightlyPacked(maxBytes: int, gens: Generations) {
    && (forall i :: 0 <= i < |gens| ==> WithinLimit(maxBytes, gens[i]))
    && (forall i :: 0 <= i < |gens| - 1 ==> gens[i] != [] && |Flat(gens[i + 1])| + |gens[i][0]| > maxBytes)
  }

  lemma AppendedFits(maxBytes: int, backups: int, gens: Generations, r: Record)
    requires gens != []
    ensures var t := Appended(maxBytes, backups, gens, r);
      if Rotating(maxBytes, backups) && |Flat(gens[0])| + |r| > maxBytes
      then t[0] == [r] && |t| <= |gens| + 1 && forall i :: 1 <= i < |t| ==> t[i] == gens[i - 1]
      else t[0] == gens[0] + [r] && |t| == |gens| && forall i :: 1 <= i < |t| ==> t[i] == gens[i]
  {
    assert [] + [r] == [r];
  }

  lemma TightStep(maxBytes: int, backups: int, gens: Generations, r: Record)
    requires gens != [] && Rotating(maxBytes, backups) && TightlyPacked(maxBytes, gens)
    ensures TightlyPacked(maxBytes, Appended(maxBytes, backups, gens, r))
  {
    AppendedFits(maxBytes, backups, gens, r);
    FlatAppend(gens[0], r);
  }

  /** A file exceeds MaxBytes only when it holds one oversized record, and files are not rotated early:
      the first record of each file did not fit into the one before. */
  lemma {:induction false} KeepsFilesTight(maxBytes: int, backups: int, history: seq<Record>)
    requires maxBytes > 0 && backups > 0
    ensures TightlyPacked(maxBytes, Kept(maxBytes, backups, history))
    decreases |history|
  {
    if history != [] {
      KeepsFilesTight(maxBytes, backups, history[..|history| - 1]);
      TightStep(maxBytes, backups, Kept(maxBytes, backups, history[..|history| - 1]), history[|history| - 1]);
    }
  }

  // An empty backup is the oldest one, left by an oversized first record before anything was dropped.
  ghost predicate OldestEmpty(maxBytes: int, gens: Generations, history: seq<Record>, i: nat) {
    0 < i < |gens| && gens[i] == [] ==>
      i == |gens| - 1 && InOrder(gens) == history && history != [] && |history[0]| > maxBytes
  }

  ghost predicate NoOtherEmpty(maxBytes: int, gens: Generations, history: seq<Record>) {
    && gens != [] && (gens[0] == [] <==> history == []) && (history == [] ==> |gens| == 1)
    && forall i: nat :: OldestEmpty(maxBytes, gens, history, i)
  }

  lemma EmptyStep(maxBytes: int, backups: int, gens: Generations, history: seq<Record>, r: Record)
    requires Rotating(maxBytes, backups) && KeepsSuffix(maxBytes, backups, gens, history) && TightlyPacked(maxBytes, gens)
    requires NoOtherEmpty(maxBytes, gens, history)
    ensures NoOtherEmpty(maxBytes, Appended(maxBytes, backups, gens, r), history + [r])
  {
    var t := Appended(maxBytes, backups, gens, r);
    AppendedFits(maxBytes, backups, gens, r);
    RoomIsSuffix(maxBytes, backups, gens, r);
    AppendedInOrder(maxBytes, backups, gens, r);
    FlatAppend([], r);
    forall i: nat
      ensures OldestEmpty(maxBytes, t, history + [r], i)
    {
      if 0 < i < |t| && t[i] == [] {
        assert OldestEmpty(maxBytes, gens, history, i) && OldestEmpty(maxBytes, gens, history, i - 1);
      }
    }
  }

  /** The one way to an empty backup: the rotation does not ask whether there is anything to keep, so
      an oversized first record leaves one, and nothing else does. */
  lemma {:induction false} EmptyBackups(maxBytes: int, backups: int, history: seq<Record>)
    requires maxBytes > 0 && backups > 0
    ensures NoOtherEmpty(maxBytes, Kept(maxBytes, backups, history), history)
    decreases |history|
  {
    if history != [] {
      var init, r := history[..|history| - 1], history[|history| - 1];
      EmptyBackups(maxBytes, backups, init);
      KeptIsSuffix(maxBytes, backups, init);
      KeepsFilesTight(maxBytes, backups, init);
      assert init + [r] == history;
      EmptyStep(maxBytes, backups, Kept(maxBytes, backups, init), init, r);
      KeptSnoc(maxBytes, backups, init, r);
    }
  }

  lemma OversizedFirstRecord(maxBytes: int, backups: int, r: Record)
    requires maxBytes > 0 && backups > 0
    ensures Kept(maxBytes, backups, [r]) == if |r| > maxBytes then [[r], []] else [[r]]
  {
    assert [r][..0] == [];
    AppendedFits(maxBytes, backups, [[]], r);
    assert [] + [r] == [r];
  }

  // ---------- on disk ----------

  // File 0 is the active one, file i its backup .i.
  function OnDisk(gens: Generations): map<nat, bytes> {
    map i: nat | i < |gens| :: Flat(gens[i])
  }

  lemma WritesOnDisk(gens: Generations, r: Record)
    requires gens != []
    ensures OnDisk([gens[0] + [r]] + gens[1..]) == OnDisk(gens)[0 := Flat(gens[0]) + r]
  {
    FlatAppend(gens[0], r);
  }

  function Renamed(files: map<nat, bytes>, src: nat, dst: nat): map<nat, bytes> {
    if src in files then (files - {src})[dst := files[src]] else files
  }

  // The files when backups above i have been renamed; was are their contents before.
  ghost predicate Shifted(files: map<nat, bytes>, was: seq<bytes>, i: nat, backups: nat) {
    && (forall j: nat :: j in files <==> (j <= i && j < |was|) || (i + 2 <= j <= backups && j <= |was|))
    && (forall j: nat :: j in files && j <= i ==> files[j] == was[j])
    && (forall j: nat :: j in files && j > i ==> files[j] == was[j - 1])
  }

  lemma ShiftStep(files: map<nat, bytes>, was: seq<bytes>, i: nat, backups: nat)
    requires 0 < i < backups && Shifted(files, was, i, backups)
    ensures Shifted(Renamed(files, i, i + 1), was, i - 1, backups)
  {
  }

  function Contents(gens: Generations): (cs: seq<bytes>)
    ensures |cs| == |gens| && forall i :: 0 <= i < |gens| ==> cs[i] == Flat(gens[i])
  {
    seq(|gens|, i requires 0 <= i < |gens| => Flat(gens[i]))
  }

  lemma RotatedAt(gens: Generations, backups: nat)
    requires gens != [] && 0 < backups && |gens| <= backups + 1
    ensures var g := Rotated(gens, backups);
      && |g| == (if |gens| <= backups then |gens| + 1 else backups + 1)
      && g[0] == [] && forall i :: 1 <= i < |g| ==> g[i] == gens[i - 1]
  {
  }

  lemma ShiftedIsRotated(files: map<nat, bytes>, gens: Generations, backups: nat)
    requires gens != [] && Shifted(files, Contents(gens), 0, backups) && 0 < backups && |gens| <= backups + 1
    ensures Renamed(files, 0, 1)[0 := []] == OnDisk(Rotated(gens, backups))
  {
    RotatedAt(gens, backups);
    var after := Renamed(files, 0, 1)[0 := []];
    forall j: nat
      ensures j in after <==> j < |Rotated(gens, backups)|
      ensures j in after ==> after[j] == if j == 0 then [] else Contents(gens)[j - 1]
    {
    }
  }

  class Writer {
    var files: map<nat, bytes>
    var size: nat
    const maxBytes: int
    const backups: int
    // every record given to Append since the files were fresh
    ghost var history: seq<Record>

    ghost predicate Valid()
      reads this
    {
      && files == OnDisk(Kept(maxBytes, backups, history))
      && 0 in files && size == |files[0]|
    }

    /** OpenWith, on fresh files or on what an earlier writer with the same options left. */
    constructor (disk: map<nat, bytes>, maxBytes: int, backups: int, ghost history: seq<Record>)
      requires disk == OnDisk(Kept(maxBytes, backups, history)) || (disk == map[] && history == [])
      ensures Valid()
      ensures this.maxBytes == maxBytes && this.backups == backups && this.history == history
    {
      this.maxBytes, this.backups, this.history := maxBytes, backups, history;
      var found := if 0 in disk then disk else disk[0 := []];
      files := found;
      size := |found[0]|;
    }

    method Append(r: Record)
      requires Valid()
      modifies this
      ensures Valid() && history == old(history) + [r]
    {
      ghost var gens := Kept(maxBytes, backups, history);
      KeptIsSuffix(maxBytes, backups, history);
      MakeRoom(gens, r);
      WritesOnDisk(MadeRoom(maxBytes, backups, gens, r), r);
      KeptSnoc(maxBytes, backups, history, r);
      files := files[0 := files[0] + r];
      size := size + |r|;
      history := history + [r];
    }

    // The first half of Append.
    method MakeRoom(ghost gens: Generations, r: Record)
      requires files == OnDisk(gens) && gens != [] && size == |Flat(gens[0])|
      requires Rotating(maxBytes, backups) ==> |gens| <= backups + 1
      modifies this`files, this`size
      ensures files == OnDisk(MadeRoom(maxBytes, backups, gens, r)) && 0 in files && size == |files[0]|
    {
      if maxBytes > 0 && backups > 0 && size + |r| > maxBytes {
        RotateLocked(gens);
      }
    }

    /** The descending rename loop. A rename whose source does not exist changes nothing. */
    method RotateLocked(ghost gens: Generations)
      requires files == OnDisk(gens) && 0 < |gens| <= backups + 1 && backups > 0
      modifies this`files, this`size
      ensures files == OnDisk(Rotated(gens, backups)) && size == 0
    {
      files := files - {backups};
      ShiftBackups(gens);
      ShiftedIsRotated(files, gens, backups);
      Rename(0, 1);
      files := files[0 := []];
      size := 0;
    }

    method ShiftBackups(ghost gens: Generations)
      requires 0 < |gens| && backups > 0 && Shifted(files, Contents(gens), backups - 1, backups)
      modifies this`files
      ensures Shifted(files, Contents(gens), 0, backups)
    {
      var i := backups - 1;
      while i >= 1
        invariant 0 <= i < backups && Shifted(files, Contents(gens), i, backups)
      {
        ShiftStep(files, Contents(gens), i, backups);
        Rename(i, i + 1);
        i := i - 1;
      }
    }

    method Rename(src: nat, dst: nat)
      modifies this`files
      ensures files == Renamed(old(files), src, dst)
    {
      if src in files {
        files := (files - {src})[dst := files[src]];
      }
    }
  }
}
