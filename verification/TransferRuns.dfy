/** Interleaved uploads and writes on one daemon connection (cmd/agbridge/daemon.go): the read loop
    demultiplexes frames into one slot per ReqID, and one goroutine per transfer drains its slot into
    a temporary file and renames it into place. */
module TransferRuns {
  import opened Wrappers
  import opened Bytes
  import opened Proto
  import opened Transfer

  type ReqID = bytes

  const TYPE_FILE_WRITE_REQUEST: byte := 31
  const TYPE_UPLOAD_REQUEST: byte := 70
  const TYPE_FILE_CHUNK: byte := 32

  const SLOT_CAPACITY := 8
  const MAX_FILE_BYTES := 10 * 0x10_0000

  datatype Kind = Write | Upload(expectedSize: int, expectedSha: Digest)

  // One transfer: what the bridge sends, and where it should end up.
  datatype Plan = Plan(path: Path, content: bytes, chunks: seq<Chunk>, kind: Kind)

  // plans by ReqID; the frames the daemon dispatches; the decoder of chunk payloads.
  datatype Config = Config(plans: map<ReqID, Plan>, frames: seq<Frame>, decode: bytes -> Option<Chunk>,
                           sha: bytes -> Digest, initial: map<Path, bytes>)

  datatype Phase = Starting | Receiving(tmp: Path) | Finished(ok: bool)

  // A handler goroutine with its end of the slot's channel, the chunks it took from it, and whether it
  // stopped because it found the context done.
  datatype Worker = Worker(inbound: seq<Chunk>, taken: seq<Chunk>, phase: Phase, cancelled: bool)

  // stopped says that the connection's context is done. temps (names of live temporary files), commits
  // (ReqIDs renamed into place) and replied (the FileCompletes written, true if without an error code)
  // are history.
  datatype State = State(next: nat, slots: set<ReqID>, workers: map<ReqID, Worker>, stopped: bool,
                         files: map<Path, bytes>, temps: set<Path>, commits: seq<ReqID>, replied: map<ReqID, bool>)

  // Looking up a slot and pushing into its channel are one step: between the two the handler could only
  // leave, and then nobody takes the chunk.
  datatype Event = Dispatch | Start(id: ReqID, tmp: Path) | Take(id: ReqID) | Commit(id: ReqID)
                 | Abort(id: ReqID, cancelled: bool) | Reply(id: ReqID) | Leave(id: ReqID) | Stop

  // ---------- what the bridge sends ----------

  predicate Begins(f: Frame) {
    f.ftype == TYPE_FILE_WRITE_REQUEST || f.ftype == TYPE_UPLOAD_REQUEST
  }

  ghost predicate Begun(fs: seq<Frame>, id: ReqID) {
    exists k :: 0 <= k < |fs| && Begins(fs[k]) && fs[k].reqID == id
  }

  function ChunkOf(cfg: Config, f: Frame): Option<Chunk> {
    if f.ftype == TYPE_FILE_CHUNK then cfg.decode(f.payload) else None
  }

  // The chunks among the frames that carry a given ReqID.
  function Pieces(cfg: Config, fs: seq<Frame>, id: ReqID): seq<Chunk> {
    if fs == [] then []
    else
      var f := fs[|fs| - 1];
      var rest := Pieces(cfg, fs[..|fs| - 1], id);
      if f.reqID == id && ChunkOf(cfg, f).Some? then rest + [ChunkOf(cfg, f).value] else rest
  }

  // Any interleaving of transfers with distinct ReqIDs, each of which sends its request and then some
  // of its chunks in order.
  ghost predicate WellSent(cfg: Config, fs: seq<Frame>) {
    && (forall n :: 0 <= n < |fs| && Begins(fs[n]) ==>
          fs[n].reqID in cfg.plans && !Begun(fs[..n], fs[n].reqID) && Pieces(cfg, fs[..n], fs[n].reqID) == [])
    && (forall id :: id in cfg.plans ==> Pieces(cfg, fs, id) <= cfg.plans[id].chunks)
  }

  ghost predicate WellFormed(cfg: Config) {
    && (forall id :: id in cfg.plans ==> Splits(cfg.plans[id].chunks, cfg.plans[id].content))
    && WellSent(cfg, cfg.frames)
  }

  lemma {:induction false} PiecesGrow(cfg: Config, fs: seq<Frame>, n: nat, id: ReqID)
    requires n <= |fs|
    ensures Pieces(cfg, fs[..n], id) <= Pieces(cfg, fs, id)
    decreases |fs| - n
  {
    if n < |fs| {
      assert fs[..n + 1][..n] == fs[..n];
      PiecesGrow(cfg, fs, n + 1, id);
    } else {
      assert fs[..n] == fs;
    }
  }

  /** What arrives of a well-sent list of frames is well sent. */
  lemma {:induction false} PrefixWellSent(cfg: Config, arrived: seq<Frame>, sent: seq<Frame>)
    requires arrived <= sent && WellSent(cfg, sent)
    ensures WellSent(cfg, arrived)
  {
    forall n | 0 <= n < |arrived| && Begins(arrived[n])
      ensures arrived[n].reqID in cfg.plans && !Begun(arrived[..n], arrived[n].reqID)
              && Pieces(cfg, arrived[..n], arrived[n].reqID) == []
    {
      assert arrived[..n] == sent[..n];
      assert Begins(sent[n]);
    }
    forall id | id in cfg.plans
      ensures Pieces(cfg, arrived, id) <= cfg.plans[id].chunks
    {
      PiecesGrow(cfg, sent, |arrived|, id);
      assert sent[..|arrived|] == arrived;
    }
  }

  // ---------- the steps ----------

  function Cap(plan: Plan): int {
    if plan.kind.Write? then MAX_FILE_BYTES else UPLOAD_MAX_BYTES
  }

  // Where a receiving loop stands after some chunks.
  function Drained(plan: Plan, taken: seq<Chunk>): Received {
    Drain(AsItems(taken), Cap(plan), [])
  }

  // The checks of finalizeUpload.
  predicate Checked(cfg: Config, plan: Plan, content: bytes) {
    plan.kind.Upload? ==>
      && (plan.kind.expectedSha == "" || cfg.sha(content) == plan.kind.expectedSha)
      && (plan.kind.expectedSize <= 0 || |content| == plan.kind.expectedSize)
  }

  ghost predicate IsDestination(cfg: Config, p: Path) {
    exists id :: id in cfg.plans && cfg.plans[id].path == p
  }

  function Delivers(cfg: Config, s: State): bool {
    0 <= s.next < |cfg.frames| && ChunkOf(cfg, cfg.frames[s.next]).Some? && cfg.frames[s.next].reqID in s.slots
  }

  predicate Has(cfg: Config, s: State, id: ReqID) {
    id in s.workers && id in cfg.plans
  }

  ghost predicate Enabled(cfg: Config, s: State, e: Event) {
    match e
    case Dispatch =>
      s.next < |cfg.frames|
      && (Delivers(cfg, s) ==> cfg.frames[s.next].reqID in s.workers
                               && |s.workers[cfg.frames[s.next].reqID].inbound| < SLOT_CAPACITY)
    case Start(id, tmp) => Has(cfg, s, id) && s.workers[id].phase.Starting?
                           && tmp !in s.files && !IsDestination(cfg, tmp)
    case Take(id) => Has(cfg, s, id) && s.workers[id].phase.Receiving? && s.workers[id].inbound != []
                     && Drained(cfg.plans[id], s.workers[id].taken).SourceError?
    case Commit(id) =>
      && Has(cfg, s, id) && s.workers[id].phase.Receiving?
      && Drained(cfg.plans[id], s.workers[id].taken).Complete?
      && Checked(cfg, cfg.plans[id], Drained(cfg.plans[id], s.workers[id].taken).content)
    case Abort(id, cancelled) => Has(cfg, s, id) && !s.workers[id].phase.Finished? && (cancelled ==> s.stopped)
    case Reply(id) => Has(cfg, s, id) && s.workers[id].phase.Finished? && id in s.slots && id !in s.replied && !s.stopped
    case Leave(id) => Has(cfg, s, id) && s.workers[id].phase.Finished? && id in s.slots
    case Stop => true
  }

  function NextWorkers(cfg: Config, s: State, e: Event): map<ReqID, Worker> {
    match e
    case Dispatch =>
      if s.next >= |cfg.frames| then s.workers
      else
        var f := cfg.frames[s.next];
        if Begins(f) then s.workers[f.reqID := Worker([], [], Starting, false)]
        else if Delivers(cfg, s) && f.reqID in s.workers then
          var w := s.workers[f.reqID];
          s.workers[f.reqID := w.(inbound := w.inbound + [ChunkOf(cfg, f).value])]
        else s.workers
    case Start(id, tmp) =>
      if id in s.workers then s.workers[id := s.workers[id].(phase := Receiving(tmp))] else s.workers
    case Take(id) =>
      if id in s.workers && s.workers[id].inbound != [] then
        var w := s.workers[id];
        s.workers[id := w.(inbound := w.inbound[1..], taken := w.taken + [w.inbound[0]])]
      else s.workers
    case Commit(id) =>
      if id in s.workers then s.workers[id := s.workers[id].(phase := Finished(true))] else s.workers
    case Abort(id, cancelled) =>
      if id in s.workers then s.workers[id := s.workers[id].(phase := Finished(false), cancelled := cancelled)] else s.workers
    case _ => s.workers
  }

  function NextSlots(cfg: Config, s: State, e: Event): set<ReqID> {
    match e
    case Dispatch =>
      if s.next < |cfg.frames| && Begins(cfg.frames[s.next]) then s.slots + {cfg.frames[s.next].reqID} else s.slots
    case Leave(id) => s.slots - {id}
    case _ => s.slots
  }

  function NextFiles(cfg: Config, s: State, e: Event): map<Path, bytes> {
    match e
    case Start(_, tmp) => s.files[tmp := []]
    case Take(id) =>
      if !Has(cfg, s, id) || !s.workers[id].phase.Receiving? || s.workers[id].inbound == [] then s.files
      else
        var w := s.workers[id];
        if w.phase.tmp !in s.files || Drained(cfg.plans[id], w.taken + [w.inbound[0]]).TooBig? then s.files
        else s.files[w.phase.tmp := s.files[w.phase.tmp] + w.inbound[0].data]
    case Commit(id) =>
      if !Has(cfg, s, id) || !s.workers[id].phase.Receiving? || s.workers[id].phase.tmp !in s.files then s.files
      else
        var tmp := s.workers[id].phase.tmp;
        (s.files - {tmp})[cfg.plans[id].path := s.files[tmp]]
    case Abort(id, _) =>
      if id in s.workers && s.workers[id].phase.Receiving? then s.files - {s.workers[id].phase.tmp} else s.files
    case _ => s.files
  }

  function NextTemps(s: State, e: Event): set<Path> {
    match e
    case Start(_, tmp) => s.temps + {tmp}
    case Commit(id) => if id in s.workers && s.workers[id].phase.Receiving? then s.temps - {s.workers[id].phase.tmp} else s.temps
    case Abort(id, _) => if id in s.workers && s.workers[id].phase.Receiving? then s.temps - {s.workers[id].phase.tmp} else s.temps
    case _ => s.temps
  }

  // A FileComplete has no error code after a success, and none when the handler was cancelled.
  function NextReplied(s: State, e: Event): map<ReqID, bool> {
    if e.Reply? && e.id in s.workers
    then s.replied[e.id := s.workers[e.id].phase == Finished(true) || s.workers[e.id].cancelled]
    else s.replied
  }

  function Next(cfg: Config, s: State, e: Event): State {
    State(if e.Dispatch? then s.next + 1 else s.next, NextSlots(cfg, s, e), NextWorkers(cfg, s, e), s.stopped || e.Stop?,
          NextFiles(cfg, s, e), NextTemps(s, e), if e.Commit? then s.commits + [e.id] else s.commits, NextReplied(s, e))
  }

  function Init(cfg: Config): State {
    State(0, {}, map[], false, cfg.initial, {}, [], map[])
  }

  ghost predicate Run(cfg: Config, s: State, events: seq<Event>, t: State)
    decreases |events|
  {
    if events == [] then t == s
    else Enabled(cfg, s, events[0]) && Run(cfg, Next(cfg, s, events[0]), events[1..], t)
  }

  ghost predicate Reachable(cfg: Config, s: State) {
    exists events :: Run(cfg, Init(cfg), events, s)
  }

  // ---------- what every step keeps ----------

  // The initial files with the given transfers written over them, in order, whole and exact.
  function Committed(cfg: Config, commits: seq<ReqID>): map<Path, bytes> {
    if commits == [] then cfg.initial
    else
      var id := commits[|commits| - 1];
      var rest := Committed(cfg, commits[..|commits| - 1]);
      if id in cfg.plans then rest[cfg.plans[id].path := cfg.plans[id].content] else rest
  }

  // A handler runs for every request seen so far; until it leaves, it holds every chunk that came in.
  ghost predicate WorkerOk(cfg: Config, seen: seq<Frame>, slots: set<ReqID>, workers: map<ReqID, Worker>, id: ReqID) {
    && (Begun(seen, id) <==> id in workers)
    && (id in slots ==> id in workers)
    && (id in workers ==>
          var w := workers[id];
          && id in cfg.plans && w.taken + w.inbound <= cfg.plans[id].chunks && (w.phase.Starting? ==> w.taken == [])
          && (id in slots ==> w.taken + w.inbound == Pieces(cfg, seen, id))
          && (id !in slots ==> w.phase.Finished?))
  }

  ghost predicate Arrived(cfg: Config, s: State) {
    s.next <= |cfg.frames| && forall id :: WorkerOk(cfg, cfg.frames[..s.next], s.slots, s.workers, id)
  }

  ghost predicate TempOk(cfg: Config, workers: map<ReqID, Worker>, files: map<Path, bytes>, temps: set<Path>, id: ReqID) {
    id in workers && workers[id].phase.Receiving? && id in cfg.plans ==>
      var w := workers[id];
      && w.phase.tmp in temps && w.phase.tmp in files && !IsDestination(cfg, w.phase.tmp)
      && (Drained(cfg.plans[id], w.taken).TooBig? || files[w.phase.tmp] == Concat(w.taken))
  }

  ghost predicate Distinct(workers: map<ReqID, Worker>, i: ReqID, j: ReqID) {
    i in workers && j in workers && i != j && workers[i].phase.Receiving? && workers[j].phase.Receiving? ==>
      workers[i].phase.tmp != workers[j].phase.tmp
  }

  ghost predicate Owned(workers: map<ReqID, Worker>, p: Path) {
    exists i :: i in workers && workers[i].phase == Receiving(p)
  }

  ghost predicate OwnTemps(workers: map<ReqID, Worker>, temps: set<Path>) {
    && (forall i, j :: Distinct(workers, i, j))
    && (forall p :: p in temps ==> Owned(workers, p))
  }

  ghost predicate Temps(cfg: Config, s: State) {
    OwnTemps(s.workers, s.temps) && forall id :: TempOk(cfg, s.workers, s.files, s.temps, id)
  }

  ghost predicate CommitsOk(s: State) {
    && (forall i, j :: 0 <= i < j < |s.commits| ==> s.commits[i] != s.commits[j])
    && (forall id :: id in s.commits <==> id in s.workers && s.workers[id].phase == Finished(true))
  }

  ghost predicate FilesOk(cfg: Config, files: map<Path, bytes>, temps: set<Path>, commits: seq<ReqID>) {
    files - temps == Committed(cfg, commits)
  }

  // A handler that found the context done cannot have replied: Send refuses under the same context.
  ghost predicate ReplyOk(s: State, id: ReqID) {
    && (id in s.workers && s.workers[id].cancelled ==> s.stopped)
    && (id in s.replied ==> id in s.workers && s.workers[id].phase.Finished? && s.replied[id] == s.workers[id].phase.ok)
  }

  ghost predicate Replies(s: State) {
    forall id :: ReplyOk(s, id)
  }

  ghost predicate Inv(cfg: Config, s: State) {
    Arrived(cfg, s) && Temps(cfg, s) && CommitsOk(s) && FilesOk(cfg, s.files, s.temps, s.commits) && Replies(s)
  }

  lemma {:induction false} DrainSnoc(cs: seq<Chunk>, c: Chunk, max: int, got: bytes)
    ensures var d := Drain(AsItems(cs), max, got);
      && (d.SourceError? ==> d.size == |got| + |Concat(cs)|
                             && Drain(AsItems(cs + [c]), max, got) == Drain([Data(c)], max, got + Concat(cs)))
    decreases |cs|
  {
    if cs == [] {
      assert got + Concat(cs) == got;
      assert AsItems(cs + [c]) == [Data(c)];
    } else {
      var rest := cs[1..];
      assert AsItems(cs)[1..] == AsItems(rest);
      assert AsItems(cs + [c])[1..] == AsItems(rest + [c]);
      ConcatCons(cs);
      DrainSnoc(rest, c, max, got + cs[0].data);
      assert got + cs[0].data + Concat(rest) == got + Concat(cs);
    }
  }

  lemma Dispatched(cfg: Config, n: nat, id: ReqID)
    requires n < |cfg.frames|
    ensures Begun(cfg.frames[..n + 1], id) <==> Begun(cfg.frames[..n], id) || (Begins(cfg.frames[n]) && cfg.frames[n].reqID == id)
    ensures var f := cfg.frames[n];
      Pieces(cfg, cfg.frames[..n + 1], id) == Pieces(cfg, cfg.frames[..n], id)
        + if f.reqID == id && f.ftype == 32 && cfg.decode(f.payload).Some? then [cfg.decode(f.payload).value] else []
  {
    var fs := cfg.frames[..n + 1];
    assert fs[..n] == cfg.frames[..n];
    if Begun(cfg.frames[..n], id) {
      var k :| 0 <= k < n && Begins(cfg.frames[..n][k]) && cfg.frames[..n][k].reqID == id;
      assert Begins(fs[k]);
    }
    if Begun(fs, id) {
      var k :| 0 <= k < n + 1 && Begins(fs[k]) && fs[k].reqID == id;
      if k < n {
        assert Begins(cfg.frames[..n][k]);
      }
    }
    if Begins(cfg.frames[n]) {
      assert Begins(fs[n]);
    }
  }

  lemma WorkerStep(cfg: Config, s: State, e: Event, id: ReqID)
    requires WellFormed(cfg) && Arrived(cfg, s) && Enabled(cfg, s, e)
    ensures e.Dispatch? ==> s.next < |cfg.frames|
    ensures var n := if e.Dispatch? then s.next + 1 else s.next;
      WorkerOk(cfg, cfg.frames[..n], NextSlots(cfg, s, e), NextWorkers(cfg, s, e), id)
  {
    assert WorkerOk(cfg, cfg.frames[..s.next], s.slots, s.workers, id);
    if e.Dispatch? {
      WorkerDispatch(cfg, s, id);
    } else {
      WorkerMoves(cfg, s, e, cfg.frames[..s.next], id);
    }
  }

  lemma WorkerMoves(cfg: Config, s: State, e: Event, seen: seq<Frame>, id: ReqID)
    requires Enabled(cfg, s, e) && !e.Dispatch? && WorkerOk(cfg, seen, s.slots, s.workers, id)
    ensures WorkerOk(cfg, seen, NextSlots(cfg, s, e), NextWorkers(cfg, s, e), id)
  {
    if e.Take? && e.id == id {
      var w := s.workers[id];
      assert w.taken + [w.inbound[0]] + w.inbound[1..] == w.taken + w.inbound;
    }
  }

  lemma WorkerDispatch(cfg: Config, s: State, id: ReqID)
    requires WellFormed(cfg) && s.next < |cfg.frames| && Enabled(cfg, s, Dispatch)
    requires WorkerOk(cfg, cfg.frames[..s.next], s.slots, s.workers, id)
    ensures WorkerOk(cfg, cfg.frames[..s.next + 1], NextSlots(cfg, s, Dispatch), NextWorkers(cfg, s, Dispatch), id)
  {
    var f := cfg.frames[s.next];
    Dispatched(cfg, s.next, id);
    if f.reqID == id && Begins(f) {
      assert id !in s.workers;
      assert Pieces(cfg, cfg.frames[..s.next + 1], id) == [];
    } else if f.reqID == id && id in s.slots && ChunkOf(cfg, f).Some? {
      WorkerReceives(cfg, s, id);
    }
  }

  lemma WorkerReceives(cfg: Config, s: State, id: ReqID)
    requires WellFormed(cfg) && s.next < |cfg.frames| && Enabled(cfg, s, Dispatch)
    requires WorkerOk(cfg, cfg.frames[..s.next], s.slots, s.workers, id)
    requires cfg.frames[s.next].reqID == id && id in s.slots && ChunkOf(cfg, cfg.frames[s.next]).Some?
    ensures WorkerOk(cfg, cfg.frames[..s.next + 1], s.slots, NextWorkers(cfg, s, Dispatch), id)
  {
    var w, c := s.workers[id], ChunkOf(cfg, cfg.frames[s.next]).value;
    Dispatched(cfg, s.next, id);
    PiecesGrow(cfg, cfg.frames, s.next + 1, id);
    assert w.taken + (w.inbound + [c]) == w.taken + w.inbound + [c];
  }

  lemma TempStep(cfg: Config, s: State, e: Event, id: ReqID)
    requires Arrived(cfg, s) && Temps(cfg, s) && Enabled(cfg, s, e)
    ensures TempOk(cfg, NextWorkers(cfg, s, e), NextFiles(cfg, s, e), NextTemps(s, e), id)
  {
    assert TempOk(cfg, s.workers, s.files, s.temps, id);
    if e.Dispatch? || e.Reply? || e.Leave? || e.Stop? {
    } else if e.id == id {
      assert WorkerOk(cfg, cfg.frames[..s.next], s.slots, s.workers, id);
      OwnTempStep(cfg, s, e);
    } else {
      OtherTempStep(cfg, s, e, id);
    }
  }

  lemma OwnTempStep(cfg: Config, s: State, e: Event)
    requires (e.Start? || e.Take? || e.Commit? || e.Abort?) && Enabled(cfg, s, e)
    requires TempOk(cfg, s.workers, s.files, s.temps, e.id) && (s.workers[e.id].phase.Starting? ==> s.workers[e.id].taken == [])
    ensures TempOk(cfg, NextWorkers(cfg, s, e), NextFiles(cfg, s, e), NextTemps(s, e), e.id)
  {
    if e.Take? {
      var w := s.workers[e.id];
      DrainSnoc(w.taken, w.inbound[0], Cap(cfg.plans[e.id]), []);
      ConcatAppend(w.taken, w.inbound[0]);
    }
  }

  // What one handler does to its temporary file or destination leaves the others' alone.
  lemma OtherTempStep(cfg: Config, s: State, e: Event, id: ReqID)
    requires (e.Start? || e.Take? || e.Commit? || e.Abort?) && Enabled(cfg, s, e) && e.id != id && Temps(cfg, s)
    ensures TempOk(cfg, NextWorkers(cfg, s, e), NextFiles(cfg, s, e), NextTemps(s, e), id)
  {
    assert TempOk(cfg, s.workers, s.files, s.temps, id) && TempOk(cfg, s.workers, s.files, s.temps, e.id);
    assert Distinct(s.workers, id, e.id);
    assert IsDestination(cfg, cfg.plans[e.id].path);
  }

  lemma DistinctStep(cfg: Config, s: State, e: Event, i: ReqID, j: ReqID)
    requires Temps(cfg, s) && Arrived(cfg, s) && Enabled(cfg, s, e)
    ensures Distinct(NextWorkers(cfg, s, e), i, j)
  {
    assert TempOk(cfg, s.workers, s.files, s.temps, i) && TempOk(cfg, s.workers, s.files, s.temps, j);
    assert WorkerOk(cfg, cfg.frames[..s.next], s.slots, s.workers, i);
    assert WorkerOk(cfg, cfg.frames[..s.next], s.slots, s.workers, j);
    assert Distinct(s.workers, i, j);
  }

  lemma OwnedStep(cfg: Config, s: State, e: Event, p: Path)
    requires WellFormed(cfg) && Arrived(cfg, s) && Temps(cfg, s) && Enabled(cfg, s, e) && p in NextTemps(s, e)
    ensures Owned(NextWorkers(cfg, s, e), p)
  {
    var workers := NextWorkers(cfg, s, e);
    if e.Start? && e.tmp == p {
      assert workers[e.id].phase == Receiving(p);
    } else {
      assert Owned(s.workers, p);
      var i :| i in s.workers && s.workers[i].phase == Receiving(p);
      if e.Dispatch? {
        NoReuse(cfg, s, i);
      }
      assert workers[i].phase == Receiving(p);
    }
  }

  lemma OwnTempsStep(cfg: Config, s: State, e: Event)
    requires WellFormed(cfg) && Arrived(cfg, s) && Temps(cfg, s) && Enabled(cfg, s, e)
    ensures OwnTemps(NextWorkers(cfg, s, e), NextTemps(s, e))
  {
    forall i, j
      ensures Distinct(NextWorkers(cfg, s, e), i, j)
    {
      DistinctStep(cfg, s, e, i, j);
    }
    forall p | p in NextTemps(s, e)
      ensures Owned(NextWorkers(cfg, s, e), p)
    {
      OwnedStep(cfg, s, e, p);
    }
  }

  // A handler still at work is never replaced: no later request carries its ReqID.
  lemma NoReuse(cfg: Config, s: State, i: ReqID)
    requires WellFormed(cfg) && Arrived(cfg, s) && s.next < |cfg.frames| && i in s.workers
    ensures !(Begins(cfg.frames[s.next]) && cfg.frames[s.next].reqID == i)
  {
    assert WorkerOk(cfg, cfg.frames[..s.next], s.slots, s.workers, i);
  }

  /** A commit renames exactly the bytes the bridge was given. */
  lemma CommitIsExact(cfg: Config, s: State, id: ReqID)
    requires WellFormed(cfg) && Arrived(cfg, s) && Temps(cfg, s) && Enabled(cfg, s, Commit(id))
    ensures s.workers[id].taken == cfg.plans[id].chunks
    ensures s.workers[id].phase.tmp in s.files && s.files[s.workers[id].phase.tmp] == cfg.plans[id].content
  {
    var w := s.workers[id];
    var plan := cfg.plans[id];
    assert WorkerOk(cfg, cfg.frames[..s.next], s.slots, s.workers, id) && TempOk(cfg, s.workers, s.files, s.temps, id);
    PrefixReceivesExactly(plan.chunks, plan.content, Cap(plan), |w.taken|);
    assert plan.chunks[..|w.taken|] == w.taken;
  }

  lemma TempIsNoDestination(cfg: Config, s: State, p: Path)
    requires Arrived(cfg, s) && Temps(cfg, s) && p in s.temps
    ensures !IsDestination(cfg, p)
  {
    assert Owned(s.workers, p);
    var i :| i in s.workers && s.workers[i].phase == Receiving(p);
    assert WorkerOk(cfg, cfg.frames[..s.next], s.slots, s.workers, i) && TempOk(cfg, s.workers, s.files, s.temps, i);
  }

  lemma FilesStep(cfg: Config, s: State, e: Event)
    requires WellFormed(cfg) && Arrived(cfg, s) && Temps(cfg, s) && Enabled(cfg, s, e)
    requires FilesOk(cfg, s.files, s.temps, s.commits)
    ensures FilesOk(cfg, NextFiles(cfg, s, e), NextTemps(s, e), if e.Commit? then s.commits + [e.id] else s.commits)
  {
    if e.Commit? {
      CommitFiles(cfg, s, e.id);
    } else if e.Start? || e.Take? || e.Abort? {
      assert TempOk(cfg, s.workers, s.files, s.temps, e.id);
      assert NextFiles(cfg, s, e) - NextTemps(s, e) == s.files - s.temps;
    }
  }

  lemma CommitFiles(cfg: Config, s: State, id: ReqID)
    requires WellFormed(cfg) && Arrived(cfg, s) && Temps(cfg, s) && Enabled(cfg, s, Commit(id))
    requires FilesOk(cfg, s.files, s.temps, s.commits)
    ensures FilesOk(cfg, NextFiles(cfg, s, Commit(id)), NextTemps(s, Commit(id)), s.commits + [id])
  {
    var plan, tmp := cfg.plans[id], s.workers[id].phase.tmp;
    assert TempOk(cfg, s.workers, s.files, s.temps, id);
    CommitIsExact(cfg, s, id);
    assert IsDestination(cfg, plan.path);
    if plan.path in s.temps {
      TempIsNoDestination(cfg, s, plan.path);
    }
    assert (s.commits + [id])[..|s.commits|] == s.commits;
    assert (s.files - {tmp})[plan.path := plan.content] - (s.temps - {tmp}) == (s.files - s.temps)[plan.path := plan.content];
  }

  lemma CommitsStep(cfg: Config, s: State, e: Event)
    requires WellFormed(cfg) && Arrived(cfg, s) && CommitsOk(s) && Enabled(cfg, s, e)
    ensures CommitsOk(Next(cfg, s, e))
  {
    forall id
      ensures id in Next(cfg, s, e).commits <==> id in Next(cfg, s, e).workers && Next(cfg, s, e).workers[id].phase == Finished(true)
    {
      assert id in s.commits <==> id in s.workers && s.workers[id].phase == Finished(true);
      if e.Dispatch? && id in s.workers {
        NoReuse(cfg, s, id);
      }
    }
  }

  lemma ReplyStep(cfg: Config, s: State, e: Event, id: ReqID)
    requires WellFormed(cfg) && Arrived(cfg, s) && Replies(s) && Enabled(cfg, s, e)
    ensures ReplyOk(Next(cfg, s, e), id)
  {
    assert ReplyOk(s, id);
    if e.Dispatch? && id in s.workers {
      NoReuse(cfg, s, id);
    }
  }

  lemma StepKeepsInv(cfg: Config, s: State, e: Event)
    requires WellFormed(cfg) && Inv(cfg, s) && Enabled(cfg, s, e)
    ensures Inv(cfg, Next(cfg, s, e))
  {
    var t := Next(cfg, s, e);
    forall id
      ensures WorkerOk(cfg, cfg.frames[..t.next], t.slots, t.workers, id) && TempOk(cfg, t.workers, t.files, t.temps, id) && ReplyOk(t, id)
    {
      ReplyStep(cfg, s, e, id);
      WorkerStep(cfg, s, e, id);
      TempStep(cfg, s, e, id);
    }
    OwnTempsStep(cfg, s, e);
    FilesStep(cfg, s, e);
    CommitsStep(cfg, s, e);
  }

  lemma {:induction false} RunKeepsInv(cfg: Config, s: State, events: seq<Event>, t: State)
    requires WellFormed(cfg) && Inv(cfg, s) && Run(cfg, s, events, t)
    ensures Inv(cfg, t)
    decreases |events|
  {
    if events != [] {
      StepKeepsInv(cfg, s, events[0]);
      RunKeepsInv(cfg, Next(cfg, s, events[0]), events[1..], t);
    }
  }

  lemma ReachableInv(cfg: Config, s: State)
    requires WellFormed(cfg) && Reachable(cfg, s)
    ensures Inv(cfg, s)
  {
    assert cfg.frames[..0] == [];
    assert cfg.initial - {} == cfg.initial;
    var events :| Run(cfg, Init(cfg), events, s);
    RunKeepsInv(cfg, Init(cfg), events, s);
  }

  // ---------- exact bytes or untouched ----------

  predicate Same(p: Path, a: map<Path, bytes>, b: map<Path, bytes>) {
    (p in a <==> p in b) && (p in a ==> a[p] == b[p])
  }

  lemma {:induction false} LastCommitWins(cfg: Config, commits: seq<ReqID>, p: Path, k: int)
    requires -1 <= k < |commits|
    requires forall j :: 0 <= j < |commits| ==> commits[j] in cfg.plans
    requires k >= 0 ==> cfg.plans[commits[k]].path == p
    requires forall j :: k < j < |commits| ==> cfg.plans[commits[j]].path != p
    ensures k == -1 ==> Same(p, Committed(cfg, commits), cfg.initial)
    ensures k >= 0 ==> p in Committed(cfg, commits) && Committed(cfg, commits)[p] == cfg.plans[commits[k]].content
    decreases |commits|
  {
    if commits != [] && k < |commits| - 1 {
      LastCommitWins(cfg, commits[..|commits| - 1], p, k);
    }
  }

  /** In every reachable state, once a transfer to a path of its own has finished, its destination
      holds exactly the bytes the bridge was given if it succeeded, and is as it was before otherwise;
      before that it is as it was, too. */
  lemma ExactOrUntouched(cfg: Config, s: State, id: ReqID)
    requires WellFormed(cfg) && Reachable(cfg, s) && id in cfg.plans
    requires forall j :: j in cfg.plans && j != id ==> cfg.plans[j].path != cfg.plans[id].path
    ensures var p := cfg.plans[id].path;
      if id in s.workers && s.workers[id].phase == Finished(true)
      then p in s.files && s.files[p] == cfg.plans[id].content
      else Same(p, s.files, cfg.initial)
  {
    ReachableInv(cfg, s);
    var p := cfg.plans[id].path;
    assert IsDestination(cfg, p);
    if p in s.temps {
      TempIsNoDestination(cfg, s, p);
    }
    assert Same(p, s.files, s.files - s.temps);
    CommitsArePlanned(cfg, s);
    if id in s.commits {
      var k: nat :| k < |s.commits| && s.commits[k] == id;
      LastCommitWins(cfg, s.commits, p, k);
    } else {
      LastCommitWins(cfg, s.commits, p, -1);
    }
  }

  lemma CommitsArePlanned(cfg: Config, s: State)
    requires Inv(cfg, s)
    ensures forall j :: 0 <= j < |s.commits| ==> s.commits[j] in cfg.plans
  {
    forall j | 0 <= j < |s.commits|
      ensures s.commits[j] in cfg.plans
    {
      assert s.commits[j] in s.commits;
      assert WorkerOk(cfg, cfg.frames[..s.next], s.slots, s.workers, s.commits[j]);
    }
  }

  /** Whatever paths are shared: the files are always the initial ones with whole transfers written
      over them one after the other, each at most once and exactly those that succeeded, and besides
      them only the temporary files of handlers at work. */
  lemma FilesAreWholeCommits(cfg: Config, s: State)
    requires WellFormed(cfg) && Reachable(cfg, s)
    ensures s.files - s.temps == Committed(cfg, s.commits)
    ensures forall i, j :: 0 <= i < j < |s.commits| ==> s.commits[i] != s.commits[j]
    ensures forall id :: id in s.commits <==> id in s.workers && s.workers[id].phase == Finished(true)
    ensures (forall id :: id in s.workers ==> s.workers[id].phase.Finished?) ==> s.files == Committed(cfg, s.commits)
  {
    ReachableInv(cfg, s);
    if forall id :: id in s.workers ==> s.workers[id].phase.Finished? {
      assert s.temps == {};
    }
  }

  lemma {:induction false} CompletesWithin(cs: seq<Chunk>, max: int, got: bytes)
    requires |got| <= max && Drain(AsItems(cs), max, got).Complete?
    ensures |Drain(AsItems(cs), max, got).content| <= max
    decreases |cs|
  {
    if cs != [] {
      assert AsItems(cs)[1..] == AsItems(cs[1..]);
      if !cs[0].eof {
        CompletesWithin(cs[1..], max, got + cs[0].data);
      }
    }
  }

  /** No transfer fails for want of a chunk: until its handler leaves, a slot and what was taken from
      it hold every chunk that came in, in order; and with all of them taken the rename goes ahead if
      and only if the file is within the cap and as expected. */
  lemma CommitsExactlyWhenAccepted(cfg: Config, s: State, id: ReqID)
    requires WellFormed(cfg) && Reachable(cfg, s) && id in s.workers && id in s.slots
    ensures s.next <= |cfg.frames| && id in cfg.plans
    ensures s.workers[id].taken + s.workers[id].inbound == Pieces(cfg, cfg.frames[..s.next], id)
    ensures s.workers[id].phase.Receiving? && s.workers[id].taken == cfg.plans[id].chunks ==>
              var content := cfg.plans[id].content;
              Enabled(cfg, s, Commit(id)) <==>
                match cfg.plans[id].kind
                case Write => |content| <= 10 * 1024 * 1024
                case Upload(size, sha) =>
                  |content| <= 1024 * 1024 * 1024 && (sha != "" ==> sha == cfg.sha(content)) && (size > 0 ==> size == |content|)
  {
    ReachableInv(cfg, s);
    assert WorkerOk(cfg, cfg.frames[..s.next], s.slots, s.workers, id);
    var w := s.workers[id];
    var plan := cfg.plans[id];
    if w.phase.Receiving? && w.taken == plan.chunks {
      WholeIsAccepted(plan);
    }
  }

  lemma WholeIsAccepted(plan: Plan)
    requires Splits(plan.chunks, plan.content)
    ensures Drained(plan, plan.chunks).Complete? <==> |plan.content| <= Cap(plan)
    ensures Drained(plan, plan.chunks).Complete? ==> Drained(plan, plan.chunks).content == plan.content
  {
    PrefixReceivesExactly(plan.chunks, plan.content, Cap(plan), |plan.chunks|);
    assert plan.chunks[..|plan.chunks|] == plan.chunks;
    if Drained(plan, plan.chunks).Complete? {
      CompletesWithin(plan.chunks, Cap(plan), []);
    }
  }

  // A finished transfer of this plan is within its cap and has the digest and size it states, if any.
  ghost predicate Deserved(cfg: Config, plan: Plan) {
    match plan.kind
    case Write => |plan.content| <= 10 * 1024 * 1024
    case Upload(size, sha) =>
      && |plan.content| <= 1024 * 1024 * 1024
      && (sha != "" ==> cfg.sha(plan.content) == sha) && (size > 0 ==> |plan.content| == size)
  }

  lemma CommitIsDeserved(cfg: Config, s: State, id: ReqID)
    requires WellFormed(cfg) && Inv(cfg, s) && Enabled(cfg, s, Commit(id))
    ensures Deserved(cfg, cfg.plans[id])
  {
    CommitIsExact(cfg, s, id);
    WholeIsAccepted(cfg.plans[id]);
  }

  ghost predicate AllDeserved(cfg: Config, s: State) {
    forall id :: id in s.workers && id in cfg.plans && s.workers[id].phase == Finished(true) ==> Deserved(cfg, cfg.plans[id])
  }

  lemma {:induction false} RunDeserves(cfg: Config, s: State, events: seq<Event>, t: State)
    requires WellFormed(cfg) && Inv(cfg, s) && AllDeserved(cfg, s) && Run(cfg, s, events, t)
    ensures AllDeserved(cfg, t)
    decreases |events|
  {
    if events != [] {
      if events[0].Commit? {
        CommitIsDeserved(cfg, s, events[0].id);
      }
      StepKeepsInv(cfg, s, events[0]);
      RunDeserves(cfg, Next(cfg, s, events[0]), events[1..], t);
    }
  }

  /** In every reachable state: no finished transfer is over its cap, and an upload that finished has the
      digest and the length that its request states, and so has its destination if that is its own. */
  lemma FinishedAsStated(cfg: Config, s: State, id: ReqID)
    requires WellFormed(cfg) && Reachable(cfg, s) && id in s.workers && s.workers[id].phase == Finished(true)
    ensures id in cfg.plans
    ensures var plan := cfg.plans[id];
      match plan.kind
      case Write => |plan.content| <= 10 * 1024 * 1024
      case Upload(size, sha) =>
        && |plan.content| <= 1024 * 1024 * 1024
        && (sha != "" ==> cfg.sha(plan.content) == sha) && (size > 0 ==> |plan.content| == size)
    ensures var p := cfg.plans[id].path;
      cfg.plans[id].kind.Upload? && (forall j :: j in cfg.plans && j != id ==> cfg.plans[j].path != p) ==>
        && p in s.files
        && (cfg.plans[id].kind.expectedSha != "" ==> cfg.sha(s.files[p]) == cfg.plans[id].kind.expectedSha)
        && (cfg.plans[id].kind.expectedSize > 0 ==> |s.files[p]| == cfg.plans[id].kind.expectedSize)
  {
    ReachableInv(cfg, s);
    assert WorkerOk(cfg, cfg.frames[..s.next], s.slots, s.workers, id);
    ReachableDeserves(cfg, s);
    if forall j :: j in cfg.plans && j != id ==> cfg.plans[j].path != cfg.plans[id].path {
      ExactOrUntouched(cfg, s, id);
    }
  }

  lemma ReachableDeserves(cfg: Config, s: State)
    requires WellFormed(cfg) && Reachable(cfg, s)
    ensures AllDeserved(cfg, s)
  {
    assert cfg.frames[..0] == [] && cfg.initial - {} == cfg.initial;
    assert Inv(cfg, Init(cfg));
    var events :| Run(cfg, Init(cfg), events, s);
    RunDeserves(cfg, Init(cfg), events, s);
  }

  /** Every request that the read loop has seen has its handler, whichever of the two frame types it is,
      and nothing else has. */
  lemma RequestsAreServed(cfg: Config, s: State, id: ReqID)
    requires WellFormed(cfg) && Reachable(cfg, s)
    ensures s.next <= |cfg.frames|
    ensures id in s.workers <==>
              exists k :: 0 <= k < s.next && cfg.frames[k].reqID == id && (cfg.frames[k].ftype == 31 || cfg.frames[k].ftype == 70)
  {
    ReachableInv(cfg, s);
    assert WorkerOk(cfg, cfg.frames[..s.next], s.slots, s.workers, id);
    var seen := cfg.frames[..s.next];
    if id in s.workers {
      var k :| 0 <= k < |seen| && Begins(seen[k]) && seen[k].reqID == id;
      assert cfg.frames[k] == seen[k];
    }
    if k :| 0 <= k < s.next && cfg.frames[k].reqID == id && (cfg.frames[k].ftype == 31 || cfg.frames[k].ftype == 70) {
      assert Begins(seen[k]) && seen[k].reqID == id;
    }
  }

  /** What the daemon reports is what it did: a FileComplete without an error code is written for exactly
      the transfers renamed into place, and never for one that was cancelled. */
  lemma RepliesAreTrue(cfg: Config, s: State, id: ReqID)
    requires WellFormed(cfg) && Reachable(cfg, s) && id in s.replied
    ensures s.replied[id] <==> id in s.commits
  {
    ReachableInv(cfg, s);
    assert ReplyOk(s, id);
  }
}
