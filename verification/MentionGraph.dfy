/** Searches of the production gate: everything reachable from the roots, whether a target
    is reachable from one function, and a shortest route. */
module MentionGraph {
  import opened Orders
  import opened Paths

  ghost predicate FromRoots<T(!new)>(g: map<T, set<T>>, roots: seq<T>, x: T) {
    exists r :: r in roots && Reachable(g, r, x)
  }

  // Every node the graph or the roots mention.
  function Universe<T>(g: map<T, set<T>>, roots: seq<T>): set<T> {
    Elems(roots) + g.Keys + set x, y | x in g && y in g[x] :: y
  }

  lemma SuccInUniverse<T>(g: map<T, set<T>>, roots: seq<T>, x: T)
    ensures Succ(g, x) <= Universe(g, roots)
  {
  }

  lemma FromRootsStep<T(!new)>(g: map<T, set<T>>, roots: seq<T>, x: T, y: T)
    requires FromRoots(g, roots, x) && y in Succ(g, x)
    ensures FromRoots(g, roots, y)
  {
    var r :| r in roots && Reachable(g, r, x);
    var p :| PathTo(g, p, r, x);
    ExtendPath(g, p, y);
    assert PathTo(g, p + [y], r, y);
  }

  lemma RootFromRoots<T(!new)>(g: map<T, set<T>>, roots: seq<T>, r: T)
    requires r in roots
    ensures FromRoots(g, roots, r)
  {
    ReachableSelf(g, r);
  }

  lemma ClosedIsComplete<T(!new)>(g: map<T, set<T>>, roots: seq<T>, s: set<T>)
    requires Elems(roots) <= s && Closed(g, s)
    ensures forall x :: FromRoots(g, roots, x) ==> x in s
  {
    forall x | FromRoots(g, roots, x) ensures x in s {
      var r :| r in roots && Reachable(g, r, x);
      var p :| PathTo(g, p, r, x);
      ClosedContains(g, s, p);
    }
  }

  // The worklist holds everything known to be reachable but not yet expanded.
  ghost predicate Frontier<T>(g: map<T, set<T>>, roots: seq<T>, seen: set<T>, pending: seq<T>) {
    && Elems(roots) <= seen + Elems(pending)
    && forall x :: x in seen ==> Succ(g, x) <= seen + Elems(pending)
  }

  ghost predicate EdgesListed(g: map<string, set<string>>, seen: set<string>, walked: seq<(string, string)>) {
    && Simple(walked)
    && forall e :: e in walked <==> e.0 in seen && e.1 in Succ(g, e.0)
  }

  // The inner loop of `reachable_from` over the sorted callees of `current`.
  method WalkEdges(g: map<string, set<string>>, current: string, seen: set<string>, pending: seq<string>)
    returns (pending': seq<string>, out: seq<(string, string)>)
    ensures Elems(pending') == Elems(pending) + (Succ(g, current) - seen)
    ensures out == Out(current, SortedSet(Succ(g, current)))
  {
    pending', out := pending, [];
    var callees := SortedSet(Succ(g, current));
    for i := 0 to |callees|
      invariant out == Out(current, callees[..i])
      invariant Elems(pending') == Elems(pending) + (Elems(callees[..i]) - seen)
    {
      assert callees[..i + 1] == callees[..i] + [callees[i]];
      ElemsAppend(callees[..i], callees[i]);
      ElemsAppend(pending', callees[i]);
      out := out + [(current, callees[i])];
      if callees[i] !in seen {
        pending' := pending' + [callees[i]];
      }
    }
    assert callees[..|callees|] == callees;
    assert Elems(callees) == Succ(g, current);
  }

  lemma FrontierStep(g: map<string, set<string>>, roots: seq<string>, seen: set<string>, pending: seq<string>,
                     x: string, pending': seq<string>)
    requires Frontier(g, roots, seen, pending + [x])
    requires Elems(pending) + (Succ(g, x) - (seen + {x})) <= Elems(pending')
    ensures Frontier(g, roots, seen + {x}, pending')
  {
    assert Elems(pending + [x]) == Elems(pending) + {x};
  }

  // The edges walked for the names expanded so far, in order.
  function AllOut(g: map<string, set<string>>, visited: seq<string>): seq<(string, string)> {
    if visited == [] then []
    else
      var last := visited[|visited| - 1];
      AllOut(g, visited[..|visited| - 1]) + Out(last, SortedSet(Succ(g, last)))
  }

  lemma {:induction false} AllOutListed(g: map<string, set<string>>, visited: seq<string>)
    requires Simple(visited)
    ensures EdgesListed(g, Elems(visited), AllOut(g, visited))
    decreases |visited|
  {
    if visited != [] {
      var rest, last := visited[..|visited| - 1], visited[|visited| - 1];
      AllOutListed(g, rest);
      SortedSetAscending(Succ(g, last));
      OutListed(g, Elems(rest), AllOut(g, rest), last, SortedSet(Succ(g, last)));
      assert visited == rest + [last];
      ElemsAppend(rest, last);
    }
  }

  ghost predicate Exploring(g: map<string, set<string>>, roots: seq<string>, seen: set<string>, pending: seq<string>,
                            all: set<string>)
  {
    && seen + Elems(pending) <= all
    && Frontier(g, roots, seen, pending)
    && (forall x :: x in seen + Elems(pending) ==> FromRoots(g, roots, x))
  }

  lemma BeginExploring(g: map<string, set<string>>, roots: seq<string>)
    ensures Exploring(g, roots, {}, roots, Universe(g, roots))
  {
    forall r | r in roots ensures FromRoots(g, roots, r) { RootFromRoots(g, roots, r); }
  }

  lemma SkipSeen(g: map<string, set<string>>, roots: seq<string>, seen: set<string>, pending: seq<string>,
                 all: set<string>, x: string)
    requires Exploring(g, roots, seen, pending + [x], all) && x in seen
    ensures Exploring(g, roots, seen, pending, all)
  {
    ElemsAppend(pending, x);
    assert seen + Elems(pending + [x]) == seen + Elems(pending);
  }

  lemma TakeNew(g: map<string, set<string>>, roots: seq<string>, seen: set<string>, pending: seq<string>,
                all: set<string>, x: string, pending': seq<string>)
    requires Exploring(g, roots, seen, pending + [x], all) && x !in seen && all == Universe(g, roots)
    requires Elems(pending) + (Succ(g, x) - (seen + {x})) <= Elems(pending') <= Elems(pending) + Succ(g, x)
    ensures Exploring(g, roots, seen + {x}, pending', all)
    ensures |all - (seen + {x})| < |all - seen|
  {
    ElemsAppend(pending, x);
    assert x in seen + Elems(pending + [x]);
    forall c | c in Succ(g, x) ensures FromRoots(g, roots, c) { FromRootsStep(g, roots, x, c); }
    FrontierStep(g, roots, seen, pending, x, pending');
    SuccInUniverse(g, roots, x);
    StrictSubset(all - (seen + {x}), all - seen, x);
  }

  lemma EndExploring(g: map<string, set<string>>, roots: seq<string>, seen: set<string>, all: set<string>)
    requires Exploring(g, roots, seen, [], all)
    ensures forall x :: x in seen <==> FromRoots(g, roots, x)
  {
    assert Elems<string>([]) == {};
    assert Closed(g, seen);
    ClosedIsComplete(g, roots, seen);
  }

  lemma VisitOnce(g: map<string, set<string>>, visited: seq<string>, x: string)
    requires Simple(visited) && x !in visited
    ensures Simple(visited + [x])
    ensures AllOut(g, visited + [x]) == AllOut(g, visited) + Out(x, SortedSet(Succ(g, x)))
  {
    assert (visited + [x])[..|visited|] == visited;
  }

  // `reachable_from`: exactly the names reachable from the roots, and each of their
  // outgoing edges exactly once.
  method ReachableFrom(g: map<string, set<string>>, roots: seq<string>)
    returns (seen: set<string>, walked: seq<(string, string)>)
    ensures forall x :: x in seen <==> FromRoots(g, roots, x)
    ensures EdgesListed(g, seen, walked)
  {
    seen := {};
    var pending := roots;
    walked := [];
    ghost var all, visited: seq<string> := Universe(g, roots), [];
    BeginExploring(g, roots);
    while pending != []
      invariant Exploring(g, roots, seen, pending, all)
      invariant Simple(visited) && Elems(visited) == seen && walked == AllOut(g, visited)
      decreases |all - seen|, |pending|
    {
      var current := pending[|pending| - 1];
      var rest := pending[..|pending| - 1];
      LastApart(pending);
      if current in seen {
        SkipSeen(g, roots, seen, rest, all, current);
        pending := rest;
      } else {
        var more, out := WalkEdges(g, current, seen + {current}, rest);
        TakeNew(g, roots, seen, rest, all, current, more);
        VisitOnce(g, visited, current);
        ElemsAppend(visited, current);
        seen, pending, walked, visited := seen + {current}, more, walked + out, visited + [current];
      }
    }
    AllOutListed(g, visited);
    EndExploring(g, roots, seen, all);
  }

  // `_direct_reaches`: whether some target other than the start is reachable from it.
  method DirectReaches(g: map<string, set<string>>, start: string, targets: set<string>) returns (found: bool)
    ensures found <==> exists t :: t in targets && t != start && Reachable(g, start, t)
  {
    var pending, seen: set<string> := [start], {};
    ghost var all := Universe(g, [start]);
    BeginExploring(g, [start]);
    while pending != []
      invariant Exploring(g, [start], seen, pending, all) && NoneMet(seen, targets, start)
      decreases |all - seen|, |pending|
    {
      var current := pending[|pending| - 1];
      var rest := pending[..|pending| - 1];
      LastApart(pending);
      if current in seen {
        SkipSeen(g, [start], seen, rest, all, current);
        pending := rest;
      } else {
        if current in targets && current != start {
          Met(g, start, seen, rest, all, current);
          return true;
        }
        var more := rest + SortedSet(Succ(g, current));
        AppendCallees(g, rest, current);
        TakeNew(g, [start], seen, rest, all, current, more);
        seen, pending := seen + {current}, more;
      }
    }
    NoTargetMet(g, start, seen, all, targets);
    return false;
  }

  lemma AppendCallees(g: map<string, set<string>>, pending: seq<string>, x: string)
    ensures Elems(pending + SortedSet(Succ(g, x))) == Elems(pending) + Succ(g, x)
  {
    var callees := SortedSet(Succ(g, x));
    assert Elems(callees) == Succ(g, x);
    forall c ensures c in pending + callees <==> c in pending || c in callees {}
  }

  // Nothing is left to explore, and no target but the start was met.
  lemma NoTargetMet(g: map<string, set<string>>, start: string, seen: set<string>, all: set<string>,
                    targets: set<string>)
    requires Exploring(g, [start], seen, [], all) && NoneMet(seen, targets, start)
    ensures forall t :: t in targets && t != start ==> !Reachable(g, start, t)
  {
    EndExploring(g, [start], seen, all);
    forall t ensures Reachable(g, start, t) ==> t in seen {
      assert start in [start];
      assert Reachable(g, start, t) ==> FromRoots(g, [start], t);
    }
  }

  predicate NoneMet(seen: set<string>, targets: set<string>, start: string) {
    forall t :: t in seen && t in targets ==> t == start
  }

  lemma Met(g: map<string, set<string>>, start: string, seen: set<string>, pending: seq<string>, all: set<string>,
            x: string)
    requires Exploring(g, [start], seen, pending + [x], all)
    ensures Reachable(g, start, x)
  {
    ElemsAppend(pending, x);
    assert x in seen + Elems(pending + [x]);
  }

  function Out(u: string, callees: seq<string>): seq<(string, string)> {
    seq(|callees|, i requires 0 <= i < |callees| => (u, callees[i]))
  }

  lemma OutListed(g: map<string, set<string>>, seen: set<string>, walked: seq<(string, string)>, u: string,
                  callees: seq<string>)
    requires EdgesListed(g, seen, walked) && u !in seen
    requires Ascending(callees) && forall c :: c in callees <==> c in Succ(g, u)
    ensures EdgesListed(g, seen + {u}, walked + Out(u, callees))
  {
    var out := Out(u, callees);
    forall e: (string, string) ensures e in out <==> e.0 == u && e.1 in callees {
      if e.0 == u && e.1 in callees {
        var k :| 0 <= k < |callees| && callees[k] == e.1;
        assert out[k] == e;
      }
    }
    var all := walked + out;
    forall i, j | 0 <= i < j < |all| ensures all[i] != all[j] {
      if i < |walked| && |walked| <= j {
        assert all[j] in out && all[i] in walked;
      }
    }
  }

  // ----- Breadth-first witness -----

  datatype Visit = Visit(node: string, path: seq<string>)

  ghost predicate RouteTo(g: map<string, set<string>>, roots: seq<string>, target: string, p: seq<string>) {
    IsPath(g, p) && p[0] in roots && p[|p| - 1] == target
  }

  ghost predicate Routed(g: map<string, set<string>>, roots: seq<string>, v: Visit) {
    RouteTo(g, roots, v.node, v.path)
  }

  // Queue entries are real routes, shortest first, spanning at most two lengths.
  ghost predicate QueueOk(g: map<string, set<string>>, roots: seq<string>, queue: seq<Visit>) {
    && (forall v :: v in queue ==> Routed(g, roots, v))
    && (forall i, j :: 0 <= i < j < |queue| ==> |queue[i].path| <= |queue[j].path|)
    && (forall v :: v in queue ==> |v.path| <= |queue[0].path| + 1)
  }

  // `dist` is the length of the route each discovered node was queued with.
  ghost predicate Labelled(queue: seq<Visit>, dist: map<string, nat>) {
    forall v :: v in queue ==> v.node in dist && dist[v.node] == |v.path|
  }

  ghost predicate RelaxedAt(g: map<string, set<string>>, dist: map<string, nat>, u: string) {
    u in dist && forall v :: v in Succ(g, u) ==> v in dist && dist[v] <= dist[u] + 1
  }

  // Nodes taken from the queue have all their successors recorded one step further at most.
  ghost predicate Relaxed(g: map<string, set<string>>, done: set<string>, dist: map<string, nat>) {
    forall u :: u in done ==> RelaxedAt(g, dist, u)
  }

  ghost predicate Queued(queue: seq<Visit>, x: string) {
    exists v :: v in queue && v.node == x
  }

  ghost predicate Discovered(done: set<string>, queue: seq<Visit>, dist: map<string, nat>) {
    forall x :: x in dist ==> x in done || Queued(queue, x)
  }

  ghost predicate RootsFirst(roots: seq<string>, dist: map<string, nat>) {
    forall r :: r in roots ==> r in dist && dist[r] == 1
  }

  // The first node of a route that was not taken yet waits in the queue at its exact depth or less.
  lemma {:induction false} FirstWaiting(g: map<string, set<string>>, done: set<string>, dist: map<string, nat>,
                                        p: seq<string>, n: nat)
    returns (i: nat)
    requires IsPath(g, p) && n < |p| && p[|p| - 1] !in done
    requires Relaxed(g, done, dist) && p[n] in dist && dist[p[n]] <= n + 1
    ensures i < |p| && p[i] !in done && p[i] in dist && dist[p[i]] <= i + 1
    decreases |p| - n
  {
    if p[n] !in done {
      i := n;
    } else {
      assert Step(g, p, n) && RelaxedAt(g, dist, p[n]);
      i := FirstWaiting(g, done, dist, p, n + 1);
    }
  }

  lemma HeadIsShortest(g: map<string, set<string>>, roots: seq<string>, done: set<string>, dist: map<string, nat>,
                       queue: seq<Visit>, p: seq<string>)
    requires queue != [] && QueueOk(g, roots, queue) && Labelled(queue, dist) && Relaxed(g, done, dist)
    requires Discovered(done, queue, dist) && RootsFirst(roots, dist)
    requires IsPath(g, p) && p[0] in roots && p[|p| - 1] !in done
    ensures |queue[0].path| <= |p|
  {
    var i := FirstWaiting(g, done, dist, p, 0);
    assert Queued(queue, p[i]);
    var v :| v in queue && v.node == p[i];
    var k :| 0 <= k < |queue| && queue[k] == v;
  }

  ghost predicate DoneWithin(done: set<string>, dist: map<string, nat>, depth: nat) {
    forall x :: x in done ==> x in dist && dist[x] <= depth
  }

  ghost predicate Search(g: map<string, set<string>>, roots: seq<string>, done: set<string>, dist: map<string, nat>,
                         queue: seq<Visit>)
  {
    && QueueOk(g, roots, queue) && Labelled(queue, dist) && Relaxed(g, done, dist)
    && Discovered(done, queue, dist) && RootsFirst(roots, dist)
    && (queue != [] ==> DoneWithin(done, dist, |queue[0].path|))
  }

  // What the callee loop appends to the queue for `head`, and records in `dist`.
  ghost predicate Appended(g: map<string, set<string>>, queue: seq<Visit>, dist: map<string, nat>, head: Visit,
                           queue': seq<Visit>, dist': map<string, nat>)
  {
    && |queue| <= |queue'| && queue'[..|queue|] == queue
    && (forall i :: |queue| <= i < |queue'| ==>
          queue'[i].node in Succ(g, head.node) && queue'[i].path == head.path + [queue'[i].node])
    && (forall i :: |queue| <= i < |queue'| ==>
          queue'[i].node in dist' && queue'[i].node !in dist && dist'[queue'[i].node] == |head.path| + 1)
    && (forall x :: x in dist ==> x in dist' && dist'[x] == dist[x])
    && (forall x :: x in dist' && x !in dist ==> Queued(queue'[|queue|..], x))
  }

  // The inner loop of `shortest_path`.
  method Expand(g: map<string, set<string>>, head: Visit, seen: set<string>, queue: seq<Visit>,
                ghost dist: map<string, nat>)
    returns (seen': set<string>, queue': seq<Visit>, ghost dist': map<string, nat>)
    requires dist.Keys == seen
    ensures seen' == seen + Succ(g, head.node) && dist'.Keys == seen'
    ensures Appended(g, queue, dist, head, queue', dist')
  {
    seen', queue', dist' := seen, queue, dist;
    var callees := SortedSet(Succ(g, head.node));
    for i := 0 to |callees|
      invariant seen' == seen + Elems(callees[..i]) && dist'.Keys == seen'
      invariant Appended(g, queue, dist, head, queue', dist')
    {
      assert callees[..i + 1] == callees[..i] + [callees[i]];
      ElemsAppend(callees[..i], callees[i]);
      var c := callees[i];
      assert c in Succ(g, head.node);
      if c !in seen' {
        AppendOne(g, queue, dist, head, queue', dist', c);
        seen', queue', dist' := seen' + {c}, queue' + [Visit(c, head.path + [c])], dist'[c := |head.path| + 1];
      }
    }
    assert callees[..|callees|] == callees;
    assert Elems(callees) == Succ(g, head.node);
  }

  lemma AppendOne(g: map<string, set<string>>, queue: seq<Visit>, dist: map<string, nat>, head: Visit,
                  queue': seq<Visit>, dist': map<string, nat>, c: string)
    requires Appended(g, queue, dist, head, queue', dist') && c !in dist' && c in Succ(g, head.node)
    ensures Appended(g, queue, dist, head, queue' + [Visit(c, head.path + [c])], dist'[c := |head.path| + 1])
  {
    var q := queue' + [Visit(c, head.path + [c])];
    assert q[|queue|..] == queue'[|queue|..] + [Visit(c, head.path + [c])];
    forall x | x in dist'[c := |head.path| + 1] && x !in dist ensures Queued(q[|queue|..], x) {
      if x == c {
        assert Visit(c, head.path + [c]) in q[|queue|..];
      } else {
        var v :| v in queue'[|queue|..] && v.node == x;
        assert v in q[|queue|..];
      }
    }
  }

  lemma NewVisit(g: map<string, set<string>>, queue: seq<Visit>, dist: map<string, nat>, head: Visit,
                 queue': seq<Visit>, dist': map<string, nat>, v: Visit)
    requires Appended(g, queue, dist, head, queue', dist') && v in queue'
    ensures v in queue || (v.node in Succ(g, head.node) && v.path == head.path + [v.node] && v.node in dist'
                           && v.node !in dist && dist'[v.node] == |head.path| + 1)
  {
    var k :| 0 <= k < |queue'| && queue'[k] == v;
    if k < |queue| { assert queue'[..|queue|][k] == v; }
  }

  lemma VisitStep(g: map<string, set<string>>, roots: seq<string>, queue: seq<Visit>, dist: map<string, nat>,
                  queue': seq<Visit>, dist': map<string, nat>, v: Visit)
    requires queue != [] && QueueOk(g, roots, queue) && Labelled(queue, dist)
    requires Appended(g, queue[1..], dist, queue[0], queue', dist') && v in queue'
    ensures Routed(g, roots, v) && v.node in dist' && dist'[v.node] == |v.path|
    ensures |queue[0].path| <= |v.path| <= |queue[0].path| + 1
  {
    var head, rest := queue[0], queue[1..];
    assert head in queue;
    NewVisit(g, rest, dist, head, queue', dist', v);
    if v in rest {
      var k :| 0 <= k < |rest| && rest[k] == v;
      assert queue[k + 1] == v && v in queue;
    } else {
      ExtendPath(g, head.path, v.node);
    }
  }

  lemma OrderStep(g: map<string, set<string>>, roots: seq<string>, queue: seq<Visit>, dist: map<string, nat>,
                  queue': seq<Visit>, dist': map<string, nat>, i: nat, j: nat)
    requires queue != [] && QueueOk(g, roots, queue) && Labelled(queue, dist)
    requires Appended(g, queue[1..], dist, queue[0], queue', dist') && i < j < |queue'|
    ensures |queue'[i].path| <= |queue'[j].path|
  {
    var rest := queue[1..];
    if j < |rest| {
      assert queue'[i] == queue'[..|rest|][i] == queue[i + 1] && queue'[j] == queue'[..|rest|][j] == queue[j + 1];
    } else {
      VisitStep(g, roots, queue, dist, queue', dist', queue'[i]);
    }
  }

  lemma QueueStep(g: map<string, set<string>>, roots: seq<string>, queue: seq<Visit>, dist: map<string, nat>,
                  queue': seq<Visit>, dist': map<string, nat>)
    requires queue != [] && QueueOk(g, roots, queue) && Labelled(queue, dist)
    requires Appended(g, queue[1..], dist, queue[0], queue', dist')
    ensures QueueOk(g, roots, queue') && Labelled(queue', dist')
    ensures queue' != [] ==> |queue[0].path| <= |queue'[0].path|
  {
    forall v | v in queue'
      ensures Routed(g, roots, v) && v.node in dist' && dist'[v.node] == |v.path|
      ensures |queue[0].path| <= |v.path| <= |queue[0].path| + 1
    {
      VisitStep(g, roots, queue, dist, queue', dist', v);
    }
    forall i: nat, j: nat | i < j < |queue'| ensures |queue'[i].path| <= |queue'[j].path| {
      OrderStep(g, roots, queue, dist, queue', dist', i, j);
    }
  }

  lemma DiscoveredStep(g: map<string, set<string>>, done: set<string>, queue: seq<Visit>, dist: map<string, nat>,
                       queue': seq<Visit>, dist': map<string, nat>)
    requires queue != [] && Discovered(done, queue, dist) && Appended(g, queue[1..], dist, queue[0], queue', dist')
    ensures Discovered(done + {queue[0].node}, queue', dist')
  {
    var rest := queue[1..];
    assert queue == [queue[0]] + rest && queue' == rest + queue'[|rest|..];
    forall x | x in dist' && x !in done + {queue[0].node} ensures Queued(queue', x) {
      if x in dist {
        var v :| v in queue && v.node == x;
        assert v in queue';
      } else {
        var v :| v in queue'[|rest|..] && v.node == x;
        assert v in queue';
      }
    }
  }

  lemma RelaxedStep(g: map<string, set<string>>, roots: seq<string>, done: set<string>, queue: seq<Visit>,
                    dist: map<string, nat>, queue': seq<Visit>, dist': map<string, nat>)
    requires queue != [] && Search(g, roots, done, dist, queue)
      && Appended(g, queue[1..], dist, queue[0], queue', dist')
    requires Succ(g, queue[0].node) <= dist'.Keys
    ensures Relaxed(g, done + {queue[0].node}, dist')
  {
    var head := queue[0];
    assert head in queue;
    forall u | u in done + {head.node} ensures RelaxedAt(g, dist', u) {
      if u in done {
        assert RelaxedAt(g, dist, u);
      } else {
        forall v | v in Succ(g, u) ensures dist'[v] <= dist'[u] + 1 {
          if v in dist {
            if v !in done { var w :| w in queue && w.node == v; }
          } else {
            var w :| w in queue'[|queue| - 1..] && w.node == v;
            assert w in queue';
            NewVisit(g, queue[1..], dist, head, queue', dist', w);
          }
        }
      }
    }
  }

  lemma SearchStep(g: map<string, set<string>>, roots: seq<string>, done: set<string>, queue: seq<Visit>,
                   dist: map<string, nat>, queue': seq<Visit>, dist': map<string, nat>)
    requires queue != [] && Search(g, roots, done, dist, queue)
      && Appended(g, queue[1..], dist, queue[0], queue', dist')
    requires Succ(g, queue[0].node) <= dist'.Keys
    ensures Search(g, roots, done + {queue[0].node}, dist', queue')
  {
    QueueStep(g, roots, queue, dist, queue', dist');
    DiscoveredStep(g, done, queue, dist, queue', dist');
    RelaxedStep(g, roots, done, queue, dist, queue', dist');
    DoneStep(done, queue, dist, dist');
  }

  lemma DoneStep(done: set<string>, queue: seq<Visit>, dist: map<string, nat>, dist': map<string, nat>)
    requires queue != [] && Labelled(queue, dist) && DoneWithin(done, dist, |queue[0].path|)
    requires forall x :: x in dist ==> x in dist' && dist'[x] == dist[x]
    ensures DoneWithin(done + {queue[0].node}, dist', |queue[0].path|)
  {
    assert queue[0] in queue;
  }

  lemma StrictSubset<T>(a: set<T>, b: set<T>, x: T)
    requires a <= b && x in b && x !in a
    ensures |a| < |b|
  {
    assert b == a + (b - a) && x in b - a;
  }

  lemma DoneIsAll(g: map<string, set<string>>, roots: seq<string>, done: set<string>, dist: map<string, nat>)
    requires Search(g, roots, done, dist, [])
    ensures forall x :: FromRoots(g, roots, x) ==> x in done
  {
    forall x | x in dist ensures x in done { assert !Queued([], x); }
    forall u | u in done ensures Succ(g, u) <= done { assert RelaxedAt(g, dist, u); }
    ClosedIsComplete(g, roots, done);
  }

  lemma FirstSearch(g: map<string, set<string>>, roots: seq<string>, queue: seq<Visit>, dist: map<string, nat>)
    requires |queue| == |roots| && forall i :: 0 <= i < |roots| ==> queue[i] == Visit(roots[i], [roots[i]])
    requires dist == map r | r in roots :: 1
    ensures Search(g, roots, {}, dist, queue)
  {
    forall r | r in roots ensures Queued(queue, r) {
      var i :| 0 <= i < |roots| && roots[i] == r;
      assert queue[i] in queue;
    }
    forall v | v in queue ensures Routed(g, roots, v) {
      assert IsPath(g, v.path);
    }
  }

  // Either a new name was discovered, or the queue is one entry shorter.
  lemma SearchShrinks(g: map<string, set<string>>, queue: seq<Visit>, dist: map<string, nat>, queue': seq<Visit>,
                      dist': map<string, nat>, all: set<string>)
    requires queue != [] && Appended(g, queue[1..], dist, queue[0], queue', dist') && dist'.Keys <= all
    ensures |all - dist'.Keys| < |all - dist.Keys| || (|all - dist'.Keys| == |all - dist.Keys| && |queue'| < |queue|)
  {
    if |queue'| >= |queue| {
      StrictSubset(all - dist'.Keys, all - dist.Keys, queue'[|queue| - 1].node);
    } else {
      assert queue'[|queue| - 1..] == [];
      assert dist'.Keys == dist.Keys;
    }
  }

  lemma HeadReached(g: map<string, set<string>>, roots: seq<string>, done: set<string>, dist: map<string, nat>,
                    queue: seq<Visit>)
    requires queue != [] && Search(g, roots, done, dist, queue) && queue[0].node !in done
    ensures FromRoots(g, roots, queue[0].node)
    ensures RouteTo(g, roots, queue[0].node, queue[0].path)
    ensures forall p :: RouteTo(g, roots, queue[0].node, p) ==> |queue[0].path| <= |p|
  {
    var head := queue[0];
    assert head in queue;
    assert PathTo(g, head.path, head.path[0], head.node);
    forall p | RouteTo(g, roots, head.node, p) ensures |head.path| <= |p| {
      HeadIsShortest(g, roots, done, dist, queue, p);
    }
  }

  // `shortest_path`: empty exactly when no root reaches the target, else a shortest route.
  method ShortestPath(g: map<string, set<string>>, roots: seq<string>, target: string) returns (path: seq<string>)
    ensures path == [] <==> !FromRoots(g, roots, target)
    ensures path != [] ==> RouteTo(g, roots, target, path)
    ensures path != [] ==> forall p :: RouteTo(g, roots, target, p) ==> |path| <= |p|
  {
    var queue := seq(|roots|, i requires 0 <= i < |roots| => Visit(roots[i], [roots[i]]));
    var seen := Elems(roots);
    ghost var all := Universe(g, roots);
    ghost var done: set<string>, dist: map<string, nat> := {}, map r | r in roots :: 1;
    FirstSearch(g, roots, queue, dist);
    while queue != []
      invariant Search(g, roots, done, dist, queue)
      invariant dist.Keys == seen <= all
      invariant target !in done
      decreases |all - seen|, |queue|
    {
      var head := queue[0];
      if head.node == target {
        HeadReached(g, roots, done, dist, queue);
        return head.path;
      }
      ghost var dist';
      var seen', queue';
      seen', queue', dist' := Expand(g, head, seen, queue[1..], dist);
      SearchStep(g, roots, done, queue, dist, queue', dist');
      SuccInUniverse(g, roots, head.node);
      SearchShrinks(g, queue, dist, queue', dist', all);
      done, dist := done + {head.node}, dist';
      seen, queue := seen', queue';
    }
    DoneIsAll(g, roots, done, dist);
    path := [];
  }
}
