/** The enrollment-token store of internal/gateway/tokens.go: an in-memory map and the JSON file that
    mirrors it, with reloads and flushes that may fail and a process that may die at any point. */
module Tokens {
  import opened Wrappers

  // The random part of a token.
  type Id = nat

  // policy names the daemon policy attached, None for nil.
  datatype Token = Token(id: Id, role: string, name: string, target: string, targets: seq<string>,
                         policy: Option<int>, expiresAt: int, used: bool, usedAt: int)

  datatype Request = Request(role: string, name: string, target: string, targets: seq<string>,
                             policy: Option<int>, ttl: int)

  datatype Error = BadRole | NameRequired | TargetRequired | NotFound | AlreadyUsed | Expired | FlushFailed

  type Toks = map<Id, Token>

  const DEFAULT_TTL := 15 * 60

  // The targets a request asks for, the single-target shorthand folded in.
  function TargetsOf(req: Request): seq<string> {
    if |req.targets| == 0 && req.target != "" then [req.target] else req.targets
  }

  function Made(id: Id, req: Request, now: int): Result<Token, Error> {
    if req.role != "bridge" && req.role != "daemon" then Err(BadRole)
    else if req.name == "" then Err(NameRequired)
    else if req.role == "bridge" && |TargetsOf(req)| == 0 then Err(TargetRequired)
    else
      var expires := now + if req.ttl <= 0 then DEFAULT_TTL else req.ttl;
      if req.role == "bridge"
      then Ok(Token(id, req.role, req.name, TargetsOf(req)[0], TargetsOf(req), req.policy, expires, false, 0))
      else Ok(Token(id, req.role, req.name, req.target, req.targets, req.policy, expires, false, 0))
  }

  ghost predicate Issuable(req: Request) {
    && (req.role == "bridge" || req.role == "daemon") && req.name != ""
    && (req.role == "bridge" ==> req.target != "" || req.targets != [])
  }

  // What a token for this request lets its holder enroll as, and until when: 15 minutes if no lifetime
  // was asked for. A bridge's single target stands for a list of one.
  ghost predicate Grants(tok: Token, id: Id, req: Request, now: int) {
    && tok.id == id && tok.role == req.role && tok.name == req.name && tok.policy == req.policy
    && tok.expiresAt == now + (if req.ttl > 0 then req.ttl else 900)
    && (if req.role == "bridge"
        then tok.targets != [] && tok.target == tok.targets[0]
             && tok.targets == if req.targets != [] then req.targets else [req.target]
        else tok.targets == req.targets && tok.target == req.target)
  }

  // reloadLocked: a missing or unreadable file leaves the map as it is.
  function Reloaded(mem: Toks, disk: Option<Toks>, readable: bool): Toks {
    if readable && disk.Some? then disk.value else mem
  }

  // Whether a token can be consumed now.
  function Check(toks: Toks, t: Id, now: int): Result<Token, Error> {
    if t !in toks then Err(NotFound)
    else if toks[t].used then Err(AlreadyUsed)
    else if now > toks[t].expiresAt then Err(Expired)
    else Ok(toks[t].(used := true, usedAt := now))
  }

  predicate Stale(tok: Token, cutoff: int) {
    if tok.used then tok.usedAt < cutoff else tok.expiresAt < cutoff
  }

  function Swept(toks: Toks, cutoff: int): Toks {
    map t | t in toks && !Stale(toks[t], cutoff) :: toks[t]
  }

  // What is found at the store's path; an empty file counts as none.
  datatype File = Missing | Unreadable | Garbled | Holds(toks: Toks)

  class TokenStore {
    var toks: Toks
    // The contents of tokens.json, None while it does not exist.
    var disk: Option<Toks>

    constructor (disk: Option<Toks>)
      ensures this.disk == disk && toks == Reloaded(map[], disk, true)
    {
      this.disk := disk;
      toks := if disk.Some? then disk.value else map[];
    }

    /** NewTokenStore: a file that is there but cannot be read or parsed is an error, a missing one is an
        empty store. */
    static method Open(file: File) returns (s: TokenStore?)
      ensures s == null <==> file.Unreadable? || file.Garbled?
      ensures s != null ==> fresh(s) && s.toks == (if file.Holds? then file.toks else map[])
      ensures s != null ==> s.disk == if file.Holds? then Some(file.toks) else None
    {
      match file {
        case Unreadable => return null;
        case Garbled => return null;
        case Missing => s := new TokenStore(None);
        case Holds(found) => s := new TokenStore(Some(found));
      }
    }

    method Reload(readable: bool)
      modifies this`toks
      ensures toks == if readable && disk.Some? then disk.value else old(toks)
    {
      if readable && disk.Some? {
        toks := disk.value;
      }
    }

    // Writes a temporary file and renames it over tokens.json, or fails leaving that alone.
    method Flush(works: bool) returns (ok: bool)
      modifies this`disk
      ensures ok == works
      ensures disk == if ok then Some(toks) else old(disk)
    {
      if !works {
        return false;
      }
      disk := Some(toks);
      return true;
    }

    /** Succeeds for a bridge or daemon with a name, and for a bridge with a target, if the flush works:
        then memory and file hold an unused token for what was asked. */
    method Issue(id: Id, req: Request, now: int, readable: bool, works: bool) returns (r: Result<Token, Error>)
      modifies this
      ensures r.Ok? <==> works && Issuable(req)
      ensures r.Err? ==> r.error == if req.role != "bridge" && req.role != "daemon" then BadRole
                                    else if req.name == "" then NameRequired
                                    else if req.role == "bridge" && req.target == "" && req.targets == [] then TargetRequired
                                    else FlushFailed
      ensures r.Ok? ==> Grants(r.value, id, req, now) && !r.value.used
                        && id in toks && toks[id] == r.value && disk == Some(toks)
      ensures Made(id, req, now).Err? ==> r.Err? && toks == old(toks) && disk == old(disk)
      ensures Made(id, req, now).Ok? ==>
                var tok := Made(id, req, now).value;
                && toks == Reloaded(old(toks), old(disk), readable)[id := tok]
                && disk == (if works then Some(toks) else old(disk))
                && r == if works then Ok(tok) else Err(FlushFailed)
    {
      if req.role != "bridge" && req.role != "daemon" {
        return Err(BadRole);
      }
      if req.name == "" {
        return Err(NameRequired);
      }
      var target, targets := req.target, req.targets;
      if req.role == "bridge" {
        if |targets| == 0 && req.target != "" {
          targets := [req.target];
        }
        if |targets| == 0 {
          return Err(TargetRequired);
        }
        target := targets[0];
      }
      var ttl := req.ttl;
      if ttl <= 0 {
        ttl := DEFAULT_TTL;
      }
      var tok := Token(id, req.role, req.name, target, targets, req.policy, now + ttl, false, 0);
      Reload(readable);
      toks := toks[id := tok];
      var ok := Flush(works);
      if !ok {
        return Err(FlushFailed);
      }
      return Ok(tok);
    }

    /** Succeeds exactly for a token that is there, unused, unexpired and gets flushed; then it is
        recorded as used in the file. A failed flush leaves it used in memory only. */
    method Consume(t: Id, now: int, readable: bool, works: bool) returns (r: Result<Token, Error>)
      modifies this
      ensures var seen := Reloaded(old(toks), old(disk), readable);
        match Check(seen, t, now)
        case Err(e) => r == Err(e) && toks == seen && disk == old(disk)
        case Ok(tok) =>
          && toks == seen[t := tok]
          && disk == (if works then Some(toks) else old(disk))
          && r == if works then Ok(tok) else Err(FlushFailed)
      ensures var seen := if readable && old(disk).Some? then old(disk).value else old(toks);
        && (r.Ok? <==> works && t in seen && !seen[t].used && now <= seen[t].expiresAt)
        && (r.Ok? ==> r.value == seen[t].(used := true, usedAt := now)
                      && disk.Some? && t in disk.value && disk.value[t] == r.value)
        && (r.Err? ==> r.error == if t !in seen then NotFound else if seen[t].used then AlreadyUsed
                                  else if now > seen[t].expiresAt then Expired else FlushFailed)
    {
      Reload(readable);
      if t !in toks {
        return Err(NotFound);
      }
      var tok := toks[t];
      if tok.used {
        return Err(AlreadyUsed);
      }
      if now > tok.expiresAt {
        return Err(Expired);
      }
      tok := tok.(used := true, usedAt := now);
      toks := toks[t := tok];
      var ok := Flush(works);
      if !ok {
        return Err(FlushFailed);
      }
      return Ok(tok);
    }

    method GC(now: int, retention: int, works: bool) returns (ok: bool)
      modifies this
      ensures toks == Swept(old(toks), now - retention)
      ensures forall k :: k in toks <==>
                k in old(toks) && (if old(toks)[k].used then old(toks)[k].usedAt else old(toks)[k].expiresAt) + retention >= now
      ensures forall k :: k in toks ==> toks[k] == old(toks)[k]
      ensures ok == works && disk == if works then Some(toks) else old(disk)
    {
      var cutoff := now - retention;
      ghost var before := toks;
      var rest := toks.Keys;
      while rest != {}
        invariant rest <= before.Keys
        invariant disk == old(disk)
        invariant toks == map t | t in before && (t in rest || !Stale(before[t], cutoff)) :: before[t]
        decreases rest
      {
        var k :| k in rest;
        rest := rest - {k};
        var t := toks[k];
        if t.used && t.usedAt < cutoff {
          toks := toks - {k};
        }
        if !t.used && t.expiresAt < cutoff {
          toks := toks - {k};
        }
      }
      assert toks == Swept(before, cutoff);
      ok := Flush(works);
    }
  }

  /** With a non-negative retention, GC never takes away a token that could still be consumed. */
  lemma SweepKeepsUsable(toks: Toks, t: Id, now: int, retention: int)
    requires retention >= 0 && Check(toks, t, now).Ok?
    ensures Check(Swept(toks, now - retention), t, now) == Check(toks, t, now)
  {
  }

  // ---------- runs of one store ----------

  // How writing the file ends. A crash loses memory and the result; the file is the old one or the
  // new one, never in between, and the store is reopened from it.
  datatype Outcome = Flushed | Failed | CrashBefore | CrashAfter

  datatype Event =
    | Issue(id: Id, req: Request, now: int, readable: bool, out: Outcome)
    | Consume(t: Id, now: int, readable: bool, out: Outcome)
    | GC(now: int, retention: int, out: Outcome)
    | Crash

  // issued and consumed record every token made and every successful Consume with what it returned.
  datatype State = State(mem: Toks, disk: Option<Toks>, issued: Toks, consumed: seq<Token>)

  ghost predicate Enabled(s: State, e: Event) {
    e.Issue? ==> e.id !in s.issued
  }

  ghost function Opened(s: State): State {
    s.(mem := Reloaded(map[], s.disk, true))
  }

  // The two copies after a flush of mem.
  ghost function FlushInto(s: State, mem: Toks, out: Outcome): State {
    match out
    case Flushed => s.(mem := mem, disk := Some(mem))
    case Failed => s.(mem := mem)
    case CrashBefore => Opened(s)
    case CrashAfter => Opened(s.(disk := Some(mem)))
  }

  ghost function Next(s: State, e: Event): State {
    match e
    case Issue(id, req, now, readable, out) =>
      (match Made(id, req, now)
       case Err(_) => s
       case Ok(tok) =>
         FlushInto(s.(issued := s.issued[id := tok]), Reloaded(s.mem, s.disk, readable)[id := tok], out))
    case Consume(t, now, readable, out) =>
      var seen := Reloaded(s.mem, s.disk, readable);
      (match Check(seen, t, now)
       case Err(_) => s.(mem := seen)
       case Ok(tok) =>
         var s1 := if out == Flushed then s.(consumed := s.consumed + [tok]) else s;
         FlushInto(s1, seen[t := tok], out))
    case GC(now, retention, out) => FlushInto(s, Swept(s.mem, now - retention), out)
    case Crash => Opened(s)
  }

  ghost predicate Run(s1: State, es: seq<Event>, s2: State)
    decreases |es|
  {
    if es == [] then s1 == s2 else Enabled(s1, es[0]) && Run(Next(s1, es[0]), es[1..], s2)
  }

  const INITIAL := State(map[], None, map[], [])

  // The same token but for its being used.
  ghost predicate SameToken(a: Token, b: Token) {
    a.(used := b.used, usedAt := b.usedAt) == b
  }

  ghost predicate CopyOk(s: State, toks: Toks) {
    && (forall t :: t in toks ==> t in s.issued && SameToken(toks[t], s.issued[t]))
    && (forall i :: 0 <= i < |s.consumed| && s.consumed[i].id in toks ==> toks[s.consumed[i].id].used)
  }

  ghost predicate Inv(s: State) {
    && CopyOk(s, s.mem) && (s.disk.Some? ==> CopyOk(s, s.disk.value))
    && (forall t :: t in s.issued ==> s.issued[t].id == t)
    && (forall i :: 0 <= i < |s.consumed| ==>
          s.consumed[i].id in s.issued && s.consumed[i].used && SameToken(s.consumed[i], s.issued[s.consumed[i].id]))
    && (forall i, j :: 0 <= i < j < |s.consumed| ==> s.consumed[i].id != s.consumed[j].id)
  }

  lemma FlushKeepsInv(s: State, mem: Toks, out: Outcome)
    requires Inv(s) && CopyOk(s, mem)
    ensures Inv(FlushInto(s, mem, out))
  {
  }

  // A token that is still unused in either copy has not been consumed; consuming it marks both.
  lemma ConsumeKeepsInv(s: State, e: Event)
    requires Inv(s) && e.Consume?
    ensures Inv(Next(s, e))
  {
    var seen := Reloaded(s.mem, s.disk, e.readable);
    var c := Check(seen, e.t, e.now);
    if c.Ok? {
      var marked := seen[e.t := c.value];
      assert forall i :: 0 <= i < |s.consumed| ==> s.consumed[i].id != e.t;
      if e.out == Flushed {
        var s1 := s.(mem := marked, disk := Some(marked), consumed := s.consumed + [c.value]);
        assert CopyOk(s1, marked);
      } else {
        FlushKeepsInv(s, marked, e.out);
      }
    }
  }

  lemma IssueKeepsInv(s: State, id: Id, tok: Token, readable: bool, out: Outcome)
    requires Inv(s) && id !in s.issued && tok.id == id
    ensures Inv(FlushInto(s.(issued := s.issued[id := tok]), Reloaded(s.mem, s.disk, readable)[id := tok], out))
  {
    var s1, seen := s.(issued := s.issued[id := tok]), Reloaded(s.mem, s.disk, readable);
    assert CopyOk(s, seen);
    assert CopyOk(s1, s.mem) && (s.disk.Some? ==> CopyOk(s1, s.disk.value));
    assert CopyOk(s1, seen[id := tok]);
    FlushKeepsInv(s1, seen[id := tok], out);
  }

  lemma SweepKeepsInv(s: State, cutoff: int, out: Outcome)
    requires Inv(s)
    ensures Inv(FlushInto(s, Swept(s.mem, cutoff), out))
  {
    assert CopyOk(s, Swept(s.mem, cutoff));
    FlushKeepsInv(s, Swept(s.mem, cutoff), out);
  }

  lemma StepKeepsInv(s: State, e: Event)
    requires Inv(s) && Enabled(s, e)
    ensures Inv(Next(s, e))
  {
    if e.Issue? {
      IssueStep(s, e);
    } else if e.Consume? {
      ConsumeKeepsInv(s, e);
    } else if e.GC? {
      SweepKeepsInv(s, e.now - e.retention, e.out);
    } else {
      CrashKeepsInv(s);
    }
  }

  lemma CrashKeepsInv(s: State)
    requires Inv(s)
    ensures Inv(Opened(s))
  {
  }

  lemma IssueStep(s: State, e: Event)
    requires Inv(s) && Enabled(s, e) && e.Issue?
    ensures Inv(Next(s, e))
  {
    if Made(e.id, e.req, e.now).Ok? {
      IssueKeepsInv(s, e.id, Made(e.id, e.req, e.now).value, e.readable, e.out);
    }
  }

  lemma {:induction false} RunKeepsInv(s1: State, es: seq<Event>, s2: State)
    requires Inv(s1) && Run(s1, es, s2)
    ensures Inv(s2)
    decreases |es|
  {
    if es != [] {
      StepKeepsInv(s1, es[0]);
      RunKeepsInv(Next(s1, es[0]), es[1..], s2);
    }
  }

  /** In every run no token is consumed twice, and every consumed token is one this store issued, with
      its role, name, targets, policy and expiry unchanged. */
  lemma ConsumedAtMostOnce(es: seq<Event>, s: State)
    requires Run(INITIAL, es, s)
    ensures forall i, j :: 0 <= i < j < |s.consumed| ==> s.consumed[i].id != s.consumed[j].id
    ensures forall i :: 0 <= i < |s.consumed| ==>
              s.consumed[i].id in s.issued && SameToken(s.consumed[i], s.issued[s.consumed[i].id])
  {
    RunKeepsInv(INITIAL, es, s);
  }

  // Both copies hold the token as it was issued.
  ghost predicate Holds(s: State, tok: Token) {
    && tok.id in s.issued && tok.id in s.mem && s.mem[tok.id] == tok
    && s.disk.Some? && tok.id in s.disk.value && s.disk.value[tok.id] == tok
  }

  // Neither a Consume of the token nor a sweep that finds it expired for longer than the retention.
  predicate Spares(e: Event, id: Id, expires: int) {
    (e.Consume? ==> e.t != id) && (e.GC? ==> e.now <= expires + e.retention)
  }

  lemma {:induction false} StaysHeld(s1: State, es: seq<Event>, s2: State, tok: Token)
    requires Holds(s1, tok) && !tok.used && Run(s1, es, s2)
    requires forall e :: e in es ==> Spares(e, tok.id, tok.expiresAt)
    ensures Holds(s2, tok)
    decreases |es|
  {
    if es != [] {
      assert Spares(es[0], tok.id, tok.expiresAt);
      assert Holds(Next(s1, es[0]), tok);
      StaysHeld(Next(s1, es[0]), es[1..], s2, tok);
    }
  }

  /** An issued token can be used: after a flushed Issue for a bridge or daemon with a name, and a target
      for a bridge, and through any run without a Consume of it or a sweep late enough to take it, a
      Consume that gets flushed succeeds if and only if it comes no later than the requested lifetime,
      or 15 minutes if none was requested, after the issue. It returns what was requested. */
  lemma IssuedIsConsumable(s0: State, id: Id, req: Request, now: int, fresh_: bool, es: seq<Event>, s: State,
                           t: int, readable: bool)
    requires id !in s0.issued && Run(Next(s0, Issue(id, req, now, fresh_, Flushed)), es, s)
    requires (req.role == "bridge" || req.role == "daemon") && req.name != ""
    requires req.role == "bridge" ==> req.target != "" || req.targets != []
    requires forall e :: e in es ==> Spares(e, id, now + if req.ttl > 0 then req.ttl else 900)
    ensures var expires := now + if req.ttl > 0 then req.ttl else 900;
      var targets := if req.role == "bridge" && req.targets == [] then [req.target] else req.targets;
      var target := if req.role == "bridge" then targets[0] else req.target;
      Next(s, Consume(id, t, readable, Flushed)).consumed ==
        s.consumed + if t <= expires then [Token(id, req.role, req.name, target, targets, req.policy, expires, true, t)] else []
  {
    var tok := Made(id, req, now).value;
    StaysHeld(Next(s0, Issue(id, req, now, fresh_, Flushed)), es, s, tok);
  }

  /** A successful Consume is on disk when it returns, and from then on, through failed reloads and
      flushes, sweeps and crashes, neither copy ever holds the token unused: every later Consume of
      it fails. */
  lemma ConsumedForGood(es: seq<Event>, s1: State, e: Event, es': seq<Event>, s2: State, readable: bool, now: int)
    requires Run(INITIAL, es, s1) && e.Consume? && Enabled(s1, e) && Run(Next(s1, e), es', s2)
    requires |Next(s1, e).consumed| > |s1.consumed|
    ensures var after := Next(s1, e); after.disk.Some? && e.t in after.disk.value && after.disk.value[e.t].used
    ensures Check(Reloaded(s2.mem, s2.disk, readable), e.t, now).Err?
  {
    RunKeepsInv(INITIAL, es, s1);
    ConsumeRecords(s1, e);
    StepKeepsInv(s1, e);
    RunKeepsInv(Next(s1, e), es', s2);
    ConsumedGrows(Next(s1, e), es', s2);
    ConsumedIsRefused(s2, |s1.consumed|, readable, now);
  }

  lemma ConsumeRecords(s: State, e: Event)
    requires Inv(s) && e.Consume? && |Next(s, e).consumed| > |s.consumed|
    ensures Next(s, e).consumed[|s.consumed|].id == e.t
    ensures var after := Next(s, e); after.disk.Some? && e.t in after.disk.value && after.disk.value[e.t].used
  {
  }

  lemma ConsumedIsRefused(s: State, i: nat, readable: bool, now: int)
    requires Inv(s) && i < |s.consumed|
    ensures Check(Reloaded(s.mem, s.disk, readable), s.consumed[i].id, now).Err?
  {
  }

  lemma {:induction false} ConsumedGrows(s1: State, es: seq<Event>, s2: State)
    requires Run(s1, es, s2)
    ensures s1.consumed <= s2.consumed
    decreases |es|
  {
    if es != [] {
      ConsumedGrows(Next(s1, es[0]), es[1..], s2);
    }
  }
}
