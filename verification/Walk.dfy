/** The recursive directory listing (cmd/agbridge/cli_ls.go): a breadth-first walk over one-level
    listings, against distance from the root. */
module Walk {
  import opened Wrappers

  type Path = nat

  // path is the parent's path joined with the entry's name.
  datatype Entry = Entry(path: Path, isDir: bool)

  datatype Listing = Failed | Entries(entries: seq<Entry>)

  datatype Walked = Walked(path: Path, entries: seq<Entry>)

  // What the daemon lists, for every directory; any finite graph will do.
  type Tree = map<Path, Listing>

  predicate Child(tree: Tree, m: Path, n: Path) {
    m in tree && tree[m].Entries? && Entry(n, true) in tree[m].entries
  }

  ghost predicate Closed(tree: Tree) {
    forall m, n :: Child(tree, m, n) ==> n in tree
  }

  // d steps lead from root to n.
  ghost predicate Hops(tree: Tree, root: Path, n: Path, d: nat)
    decreases d
  {
    if d == 0 then n == root
    else exists m :: Hops(tree, root, m, d - 1) && Child(tree, m, n)
  }

  ghost predicate Distance(tree: Tree, root: Path, n: Path, d: nat) {
    Hops(tree, root, n, d) && forall k: nat :: k < d ==> !Hops(tree, root, n, k)
  }

  // The directories to be listed; a depth of at most 0 sets no bound.
  ghost predicate Wanted(tree: Tree, root: Path, recursive: bool, depth: int, n: Path) {
    if recursive then exists k: nat :: (depth > 0 ==> k <= depth) && Hops(tree, root, n, k) else n == root
  }

  ghost predicate NoDuplicates(s: seq<Path>) {
    forall i, j :: 0 <= i < j < |s| ==> s[i] != s[j]
  }

  // ---------- the state of the walk ----------

  // Every path seen, once, in the order of its depth.
  ghost predicate Ordered(all: seq<Path>, seen: map<Path, nat>) {
    && NoDuplicates(all)
    && (forall n :: n in all <==> n in seen)
    && (forall i, j :: 0 <= i < j < |all| ==> seen[all[i]] <= seen[all[j]])
  }

  // Nothing in the queue is more than one step deeper than its head.
  ghost predicate Level(queue: seq<Path>, seen: map<Path, nat>) {
    forall i :: 0 <= i < |queue| ==> queue[i] in seen && queue[0] in seen && seen[queue[i]] <= seen[queue[0]] + 1
  }

  predicate Deeper(recursive: bool, depth: int, d: nat) {
    recursive && (depth > 0 ==> d < depth)
  }

  ghost predicate Expanded(tree: Tree, recursive: bool, depth: int, seen: map<Path, nat>, m: Path) {
    m in tree && tree[m].Entries? && m in seen
    && (Deeper(recursive, depth, seen[m]) ==> forall n :: Child(tree, m, n) ==> n in seen && seen[n] <= seen[m] + 1)
  }

  ghost predicate Sound(tree: Tree, root: Path, recursive: bool, depth: int, seen: map<Path, nat>) {
    && root in seen && seen[root] == 0
    && (forall n :: n in seen ==> n in tree && Hops(tree, root, n, seen[n]))
    && (forall n :: n in seen ==> n == root || (recursive && (depth > 0 ==> seen[n] <= depth)))
  }

  ghost predicate Walking(tree: Tree, root: Path, recursive: bool, depth: int,
                          visited: seq<Path>, queue: seq<Path>, seen: map<Path, nat>) {
    && Sound(tree, root, recursive, depth, seen)
    && Ordered(visited + queue, seen) && Level(queue, seen)
    && (forall m :: m in visited ==> Expanded(tree, recursive, depth, seen, m))
  }

  // The directories of a listing that are new, in its order.
  function NewDirs(entries: seq<Entry>, seen: set<Path>): seq<Path> {
    if entries == [] then []
    else
      var before, e := NewDirs(entries[..|entries| - 1], seen), entries[|entries| - 1];
      if e.isDir && e.path !in seen && e.path !in before then before + [e.path] else before
  }

  /** New directories are queued in listing order: those of the first n entries come first. */
  lemma {:induction false} NewDirsInOrder(entries: seq<Entry>, n: nat, seen: set<Path>)
    requires n <= |entries|
    ensures NewDirs(entries[..n], seen) <= NewDirs(entries, seen)
    ensures forall p :: p in NewDirs(entries, seen) <==> Entry(p, true) in entries && p !in seen
    decreases |entries|
  {
    if entries != [] {
      var init := entries[..|entries| - 1];
      assert entries == init + [entries[|entries| - 1]];
      NewDirsInOrder(init, if n < |entries| then n else 0, seen);
      assert n < |entries| ==> init[..n] == entries[..n];
      assert n == |entries| ==> entries[..n] == entries;
    }
  }

  /** The inner loop: every directory entry not seen yet is queued, in listing order, one level down. */
  method Enqueue(entries: seq<Entry>, d: nat, queue0: seq<Path>, seen0: map<Path, nat>)
    returns (queue: seq<Path>, seen: map<Path, nat>)
    ensures queue == queue0 + NewDirs(entries, seen0.Keys) && seen0.Keys <= seen.Keys
    ensures forall n :: n in seen0 ==> seen[n] == seen0[n]
    ensures forall n :: n in seen && n !in seen0 ==> Entry(n, true) in entries && seen[n] == d
    ensures forall n :: Entry(n, true) in entries ==> n in seen
    ensures forall n :: n in queue[|queue0|..] <==> n in seen && n !in seen0
    ensures NoDuplicates(queue[|queue0|..])
  {
    queue, seen := queue0, seen0;
    for i := 0 to |entries|
      invariant queue == queue0 + NewDirs(entries[..i], seen0.Keys) && seen0.Keys <= seen.Keys
      invariant forall n :: n in seen0 ==> seen[n] == seen0[n]
      invariant forall n :: n in seen && n !in seen0 ==> Entry(n, true) in entries && seen[n] == d
      invariant forall j :: 0 <= j < i && entries[j].isDir ==> entries[j].path in seen
      invariant forall n :: n in queue[|queue0|..] <==> n in seen && n !in seen0
      invariant NoDuplicates(queue[|queue0|..])
    {
      var e := entries[i];
      assert entries[..i + 1][..i] == entries[..i];
      if e.isDir && e.path !in seen {
        assert e == Entry(e.path, true);
        assert (queue + [e.path])[|queue0|..] == queue[|queue0|..] + [e.path];
        seen := seen[e.path := d];
        queue := queue + [e.path];
      }
    }
    assert entries[..|entries|] == entries;
  }

  // What one turn of the outer loop does to the queue and to seen.
  ghost predicate Turned(tree: Tree, recursive: bool, depth: int, queue: seq<Path>, seen: map<Path, nat>,
                         queue2: seq<Path>, seen2: map<Path, nat>)
    requires queue != [] && queue[0] in seen && queue[0] in tree && tree[queue[0]].Entries?
  {
    var cur := queue[0];
    var rest := queue[1..];
    if Deeper(recursive, depth, seen[cur]) then
      && rest <= queue2 && NoDuplicates(queue2[|rest|..])
      && (forall n :: n in seen ==> n in seen2 && seen2[n] == seen[n])
      && (forall n :: n in seen2 && n !in seen ==> Child(tree, cur, n) && seen2[n] == seen[cur] + 1)
      && (forall n :: Child(tree, cur, n) ==> n in seen2)
      && (forall n :: n in queue2[|rest|..] <==> n in seen2 && n !in seen)
    else
      queue2 == rest && seen2 == seen
  }

  lemma TurnKeepsSound(tree: Tree, root: Path, recursive: bool, depth: int, queue: seq<Path>, seen: map<Path, nat>,
                       queue2: seq<Path>, seen2: map<Path, nat>)
    requires Closed(tree) && Sound(tree, root, recursive, depth, seen)
    requires queue != [] && queue[0] in seen && queue[0] in tree && tree[queue[0]].Entries?
    requires Turned(tree, recursive, depth, queue, seen, queue2, seen2)
    ensures Sound(tree, root, recursive, depth, seen2)
  {
    forall n | n in seen2
      ensures n in tree && Hops(tree, root, n, seen2[n])
    {
      if n !in seen {
        assert Hops(tree, root, queue[0], seen[queue[0]]) && Child(tree, queue[0], n);
      }
    }
  }

  // A last level may be added below what is there.
  lemma OrderedGrows(all: seq<Path>, seen: map<Path, nat>, added: seq<Path>, seen2: map<Path, nat>, d: nat)
    requires Ordered(all, seen) && NoDuplicates(added)
    requires forall n :: n in seen ==> n in seen2 && seen2[n] == seen[n] <= d
    requires forall n :: n in added <==> n in seen2 && n !in seen
    requires forall n :: n in added ==> seen2[n] == d
    ensures Ordered(all + added, seen2)
  {
    var all2 := all + added;
    forall i | 0 <= i < |all2|
      ensures all2[i] in seen2 && (if i < |all| then all2[i] in seen else all2[i] in added)
    {
      assert i < |all| ==> all[i] in all;
    }
    forall n
      ensures n in all2 <==> n in seen2
    {
      assert n in all2 <==> n in all || n in added;
    }
  }

  lemma QueueIsLast(visited: seq<Path>, queue: seq<Path>, seen: map<Path, nat>, n: Path)
    requires Ordered(visited + queue, seen) && Level(queue, seen) && queue != [] && n in seen
    ensures queue[0] in seen && seen[n] <= seen[queue[0]] + 1
    ensures n in queue ==> seen[queue[0]] <= seen[n]
  {
    var all := visited + queue;
    assert all[|visited|] == queue[0] && queue[0] in all && n in all;
    var i: nat :| i < |all| && all[i] == n;
    if i >= |visited| {
      assert queue[i - |visited|] == n;
    }
    if n in queue {
      var j: nat :| j < |queue| && queue[j] == n;
      assert all[|visited| + j] == n;
    }
  }

  lemma TurnKeepsOrder(tree: Tree, recursive: bool, depth: int, visited: seq<Path>, queue: seq<Path>, seen: map<Path, nat>,
                       queue2: seq<Path>, seen2: map<Path, nat>)
    requires Ordered(visited + queue, seen) && Level(queue, seen)
    requires queue != [] && queue[0] in seen && queue[0] in tree && tree[queue[0]].Entries?
    requires Turned(tree, recursive, depth, queue, seen, queue2, seen2)
    ensures Ordered(visited + [queue[0]] + queue2, seen2)
  {
    if Deeper(recursive, depth, seen[queue[0]]) {
      var added := queue2[|queue| - 1..];
      assert visited + [queue[0]] + queue2 == visited + queue + added;
      forall n | n in seen
        ensures seen[n] <= seen[queue[0]] + 1
      {
        QueueIsLast(visited, queue, seen, n);
      }
      OrderedGrows(visited + queue, seen, added, seen2, seen[queue[0]] + 1);
    } else {
      assert visited + [queue[0]] + queue2 == visited + queue;
    }
  }

  lemma TurnKeepsLevel(tree: Tree, recursive: bool, depth: int, visited: seq<Path>, queue: seq<Path>, seen: map<Path, nat>,
                       queue2: seq<Path>, seen2: map<Path, nat>)
    requires Ordered(visited + queue, seen) && Level(queue, seen)
    requires queue != [] && queue[0] in seen && queue[0] in tree && tree[queue[0]].Entries?
    requires Turned(tree, recursive, depth, queue, seen, queue2, seen2)
    ensures Level(queue2, seen2)
  {
    forall i | 0 <= i < |queue2|
      ensures queue2[i] in seen2 && seen[queue[0]] <= seen2[queue2[i]] <= seen[queue[0]] + 1
    {
      if i < |queue| - 1 {
        assert queue2[i] == queue[1..][i] == queue[i + 1];
        QueueIsLast(visited, queue, seen, queue[i + 1]);
      } else {
        assert queue2[i] in queue2[|queue| - 1..];
      }
    }
  }

  lemma TurnKeepsWalking(tree: Tree, root: Path, recursive: bool, depth: int, visited: seq<Path>, queue: seq<Path>,
                         seen: map<Path, nat>, queue2: seq<Path>, seen2: map<Path, nat>)
    requires Closed(tree) && Walking(tree, root, recursive, depth, visited, queue, seen)
    requires queue != [] && queue[0] in seen && queue[0] in tree && tree[queue[0]].Entries?
    requires Turned(tree, recursive, depth, queue, seen, queue2, seen2)
    ensures Walking(tree, root, recursive, depth, visited + [queue[0]], queue2, seen2)
  {
    TurnKeepsSound(tree, root, recursive, depth, queue, seen, queue2, seen2);
    TurnKeepsOrder(tree, recursive, depth, visited, queue, seen, queue2, seen2);
    TurnKeepsLevel(tree, recursive, depth, visited, queue, seen, queue2, seen2);
    forall m | m in visited + [queue[0]]
      ensures Expanded(tree, recursive, depth, seen2, m)
    {
      if m in visited {
        assert Expanded(tree, recursive, depth, seen, m);
      }
    }
  }

  // ---------- when the queue is empty ----------

  lemma {:induction false} SeesEverythingWithin(tree: Tree, root: Path, depth: int, visited: seq<Path>,
                                                seen: map<Path, nat>, n: Path, k: nat)
    requires Walking(tree, root, true, depth, visited, [], seen)
    requires Hops(tree, root, n, k) && (depth > 0 ==> k <= depth)
    ensures n in seen && seen[n] <= k
    decreases k
  {
    if k > 0 {
      var m :| Hops(tree, root, m, k - 1) && Child(tree, m, n);
      SeesEverythingWithin(tree, root, depth, visited, seen, m, k - 1);
      assert visited + [] == visited;
      assert Expanded(tree, true, depth, seen, m);
    }
  }

  /** When the queue has run empty, the visited directories are exactly the wanted ones, and the depth
      recorded for each is its distance from the root. */
  lemma VisitsExactlyWanted(tree: Tree, root: Path, recursive: bool, depth: int, visited: seq<Path>,
                            seen: map<Path, nat>, n: Path)
    requires Walking(tree, root, recursive, depth, visited, [], seen)
    ensures n in visited <==> Wanted(tree, root, recursive, depth, n)
    ensures n in visited ==> n in seen && Distance(tree, root, n, seen[n])
  {
    assert visited + [] == visited;
    if recursive {
      if Wanted(tree, root, recursive, depth, n) {
        var k: nat :| (depth > 0 ==> k <= depth) && Hops(tree, root, n, k);
        SeesEverythingWithin(tree, root, depth, visited, seen, n, k);
      }
      if n in visited {
        forall k: nat | k < seen[n]
          ensures !Hops(tree, root, n, k)
        {
          if Hops(tree, root, n, k) {
            SeesEverythingWithin(tree, root, depth, visited, seen, n, k);
          }
        }
      }
    } else if n in visited {
      assert n == root && seen[n] == 0;
    }
  }

  function Paths(walks: seq<Walked>): (ps: seq<Path>)
    ensures |ps| == |walks| && forall i :: 0 <= i < |ps| ==> ps[i] == walks[i].path
  {
    seq(|walks|, i requires 0 <= i < |walks| => walks[i].path)
  }

  // The result promised: every wanted directory once, with its entries, nearer ones first.
  ghost predicate Complete(tree: Tree, root: Path, recursive: bool, depth: int, walks: seq<Walked>) {
    && NoDuplicates(Paths(walks))
    && (forall n :: n in Paths(walks) <==> Wanted(tree, root, recursive, depth, n))
    && (forall w :: w in walks ==> w.path in tree && tree[w.path] == Entries(w.entries))
    && (forall i, j, a, b ::
          0 <= i < j < |walks| && Distance(tree, root, walks[i].path, a) && Distance(tree, root, walks[j].path, b) ==> a <= b)
  }

  lemma DistanceIsUnique(tree: Tree, root: Path, n: Path, a: nat, b: nat)
    requires Distance(tree, root, n, a) && Distance(tree, root, n, b)
    ensures a == b
  {
  }

  lemma WalkIsComplete(tree: Tree, root: Path, recursive: bool, depth: int, walks: seq<Walked>, seen: map<Path, nat>)
    requires Walking(tree, root, recursive, depth, Paths(walks), [], seen)
    requires forall w :: w in walks ==> w.path in tree && tree[w.path] == Entries(w.entries)
    ensures Complete(tree, root, recursive, depth, walks)
  {
    var ps := Paths(walks);
    assert ps + [] == ps;
    forall n
      ensures n in ps <==> Wanted(tree, root, recursive, depth, n)
      ensures n in ps ==> n in seen && Distance(tree, root, n, seen[n])
    {
      VisitsExactlyWanted(tree, root, recursive, depth, ps, seen, n);
    }
    forall i, j, a, b | 0 <= i < j < |walks| && Distance(tree, root, walks[i].path, a) && Distance(tree, root, walks[j].path, b)
      ensures a <= b
    {
      assert ps[i] in ps && ps[j] in ps;
      DistanceIsUnique(tree, root, ps[i], a, seen[ps[i]]);
      DistanceIsUnique(tree, root, ps[j], b, seen[ps[j]]);
    }
  }

  // What is in the queue is wanted, whether or not the walk gets there.
  lemma SeenIsWanted(tree: Tree, root: Path, recursive: bool, depth: int, seen: map<Path, nat>, n: Path)
    requires Sound(tree, root, recursive, depth, seen) && n in seen
    ensures Wanted(tree, root, recursive, depth, n)
  {
    assert Hops(tree, root, n, seen[n]) && (depth > 0 && recursive ==> seen[n] <= depth);
  }

  // Every walk carries the daemon's listing, and unvisited holds the other directories.
  ghost predicate Listed(tree: Tree, walks: seq<Walked>, unvisited: set<Path>) {
    && (forall w :: w in walks ==> w.path in tree && tree[w.path] == Entries(w.entries))
    && (forall n :: n in unvisited <==> n in tree && n !in Paths(walks))
  }

  lemma HeadIsNew(tree: Tree, walks: seq<Walked>, queue: seq<Path>, seen: map<Path, nat>, unvisited: set<Path>)
    requires Ordered(Paths(walks) + queue, seen) && queue != [] && Listed(tree, walks, unvisited)
    ensures queue[0] in seen && (queue[0] in tree ==> queue[0] in unvisited)
  {
    var visited := Paths(walks);
    var all := visited + queue;
    assert all[|visited|] == queue[0] && queue[0] in all;
    assert forall i :: 0 <= i < |visited| ==> all[i] == visited[i] && all[i] != all[|visited|];
  }

  lemma VisitOne(tree: Tree, walks: seq<Walked>, unvisited: set<Path>, w: Walked)
    requires Listed(tree, walks, unvisited) && w.path in tree && tree[w.path] == Entries(w.entries)
    ensures Paths(walks + [w]) == Paths(walks) + [w.path]
    ensures Listed(tree, walks + [w], unvisited - {w.path})
  {
    assert Paths(walks + [w]) == Paths(walks) + [w.path];
  }

  /** The walk inside runLs: it ends on every finite tree, fails if and only if a wanted directory
      cannot be listed, and is complete otherwise. */
  method Ls(tree: Tree, root: Path, recursive: bool, depth: int) returns (r: Result<seq<Walked>, Path>)
    requires Closed(tree) && root in tree
    ensures r.Ok? ==> Complete(tree, root, recursive, depth, r.value)
    ensures r.Err? <==> exists n :: n in tree && tree[n].Failed? && Wanted(tree, root, recursive, depth, n)
    ensures r.Err? ==> r.error in tree && tree[r.error].Failed? && Wanted(tree, root, recursive, depth, r.error)
  {
    var walks: seq<Walked> := [];
    var queue := [root];
    var seen: map<Path, nat> := map[root := 0];
    ghost var unvisited := tree.Keys;
    while queue != []
      invariant Walking(tree, root, recursive, depth, Paths(walks), queue, seen)
      invariant Listed(tree, walks, unvisited)
      decreases unvisited
    {
      var cur := queue[0];
      HeadIsNew(tree, walks, queue, seen, unvisited);
      if tree[cur].Failed? {
        SeenIsWanted(tree, root, recursive, depth, seen, cur);
        return Err(cur);
      }
      var entries := tree[cur].entries;
      var queue2, seen2 := queue[1..], seen;
      if recursive && !(depth > 0 && seen[cur] >= depth) {
        queue2, seen2 := Enqueue(entries, seen[cur] + 1, queue2, seen2);
      }
      TurnKeepsWalking(tree, root, recursive, depth, Paths(walks), queue, seen, queue2, seen2);
      VisitOne(tree, walks, unvisited, Walked(cur, entries));
      walks := walks + [Walked(cur, entries)];
      queue, seen, unvisited := queue2, seen2, unvisited - {cur};
    }
    WalkIsComplete(tree, root, recursive, depth, walks, seen);
    r := Ok(walks);
  }
}
