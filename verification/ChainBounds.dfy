/** What the byte total of the stack-depth walk means: which paths it bounds on an
    arbitrary graph, and on which graphs it is the true maximum. */
module ChainBounds {
  import opened Orders
  import opened Paths
  import Postorder
  import opened StackChain

  // The order in which the functions reached from the root are finished, by the graph alone.
  ghost function FinishOrder(g: map<string, set<string>>, root: string): seq<string> {
    Postorder.From(g, root)
  }

  ghost predicate RootPath(g: map<string, set<string>>, root: string, p: seq<string>) {
    IsPath(g, p) && p[0] == root && Simple(p)
  }

  // ----- The memo is filled in depth-first postorder, whatever the frames -----

  // What the search has seen: the stack, and what the memo holds.
  ghost predicate Seen(seen: set<string>, stack: seq<string>, memo: Memo) {
    && seen == Elems(stack) + Elems(memo.order)
    && forall x :: x in memo.order <==> x in memo.at
  }

  ghost predicate SameSearch(visit: (set<string>, seq<string>), stack: seq<string>, memo: Memo) {
    visit.1 == memo.order && Seen(visit.0, stack, memo)
  }

  lemma SeenDeeper(seen: set<string>, stack: seq<string>, memo: Memo, name: string)
    requires Seen(seen, stack, memo)
    ensures Seen(seen + {name}, stack + [name], memo)
  {
    ElemsAppend(stack, name);
  }

  lemma SeenInserted(seen: set<string>, stack: seq<string>, memo: Memo, name: string, d: Deep)
    requires Seen(seen, stack + [name], memo)
    ensures Seen(seen, stack, Insert(memo, name, d))
  {
    ElemsAppend(stack, name);
    ElemsAppend(memo.order, name);
  }

  lemma {:induction false} WalkIsVisit(frames: map<string, nat>, g: map<string, set<string>>, name: string,
                                       stack: seq<string>, memo: Memo, seen: set<string>)
    requires stack != [] && Seen(seen, stack, memo)
    ensures SameSearch(Postorder.Visit(g, name, seen, memo.order), stack, Walk(frames, g, name, stack, memo).1)
    decreases Unvisited(g, stack), 1, 0
  {
    if name !in stack && name !in memo.at {
      var callees := SortedSet(Succ(g, name));
      SeenDeeper(seen, stack, memo, name);
      ScanIsVisit(frames, g, name, stack, callees, Deep(0, []), memo, seen + {name});
      var (deepest, m) := Scan(frames, g, name, stack, callees, Deep(0, []), memo);
      var visit := Postorder.VisitAll(g, callees, seen + {name}, memo.order);
      SeenInserted(visit.0, stack, m, name, Over(frames, name, deepest));
    }
  }

  lemma {:induction false} ScanIsVisit(frames: map<string, nat>, g: map<string, set<string>>, name: string,
                                       stack: seq<string>,
                                       rest: seq<string>, deepest: Deep, memo: Memo, seen: set<string>)
    requires Seen(seen, stack + [name], memo)
    requires name !in stack && forall c :: c in rest ==> c in Succ(g, name)
    ensures SameSearch(Postorder.VisitAll(g, rest, seen, memo.order), stack + [name],
                       Scan(frames, g, name, stack, rest, deepest, memo).1)
    decreases Unvisited(g, stack), 0, |rest|
  {
    if rest != [] {
      if rest[0] == name {
        assert name in Elems(stack + [name]);
        ScanIsVisit(frames, g, name, stack, rest[1..], deepest, memo, seen);
      } else {
        assert rest[0] in Succ(g, name);
        DeeperStack(g, stack, name);
        WalkIsVisit(frames, g, rest[0], stack + [name], memo, seen);
        var (sub, m) := Walk(frames, g, rest[0], stack + [name], memo);
        var visit := Postorder.Visit(g, rest[0], seen, memo.order);
        ScanIsVisit(frames, g, name, stack, rest[1..], if sub.bytes > deepest.bytes then sub else deepest, m, visit.0);
      }
    }
  }

  // The memo, with the root last, is filled in postorder: what is cut is decided by the graph alone.
  lemma FinishOrderFixed(frames: map<string, nat>, g: map<string, set<string>>, root: string)
    ensures Finished(frames, g, root).order == FinishOrder(g, root)
  {
    assert [] + [root] == [root] && Elems([root]) == {root} && {} + {root} == {root};
    assert Seen({root}, [root], EMPTY_MEMO);
    ScanIsVisit(frames, g, root, [], SortedSet(Succ(g, root)), Deep(0, []), EMPTY_MEMO, {root});
  }

  // ----- On every graph -----

  // The total is the frame sum of the reported path: a genuine call path that repeats nothing.
  lemma TotalIsReportedPath(frames: map<string, nat>, g: map<string, set<string>>, root: string)
    ensures var d := ChainBytes(frames, g, root);
            && RootPath(g, root, Names(d.path)) && AllCharged(frames, d.path)
            && Kept(g, FinishOrder(g, root), Names(d.path))
            && FrameSum(frames, Names(d.path)) == d.bytes
  {
    var memo := Finished(frames, g, root);
    WalkCompletes(frames, g, root);
    FinishOrderFixed(frames, g, root);
    PathGenuine(frames, g, memo, |memo.order| - 1);
    KeptSimple(g, memo.order, Names(memo.at[root].path));
  }

  // No uncut path from the root costs more than the total.
  lemma TotalBoundsKept(frames: map<string, nat>, g: map<string, set<string>>, root: string, p: seq<string>)
    requires Kept(g, FinishOrder(g, root), p) && p[0] == root
    ensures FrameSum(frames, p) <= ChainBytes(frames, g, root).bytes
  {
    WalkCompletes(frames, g, root);
    FinishOrderFixed(frames, g, root);
    KeptBounded(frames, g, Finished(frames, g, root), p);
  }

  lemma AppendKept(g: map<string, set<string>>, order: seq<string>, q: seq<string>, x: string)
    requires Kept(g, order, q) && x in order && x in Succ(g, q[|q| - 1]) && Pos(order, x) < Pos(order, q[|q| - 1])
    ensures Kept(g, order, q + [x])
  {
    ExtendPath(g, q, x);
    var p := q + [x];
    forall j | 0 <= j < |p| - 1 ensures Pos(order, p[j + 1]) < Pos(order, p[j]) {
      if j < |q| - 1 { assert p[j + 1] == q[j + 1] && p[j] == q[j]; }
    }
  }

  lemma CallerAfter(g: map<string, set<string>>, order: seq<string>, i: nat) returns (k: nat)
    requires i < |order| && HasCaller(g, order, [], i)
    ensures i < k < |order| && order[i] in Succ(g, order[k])
  {
    var u :| order[i] in Succ(g, u) && u != order[i] && u in order[i + 1..];
    k :| i + 1 <= k < |order| && order[k] == u;
  }

  lemma {:induction false} Climb(g: map<string, set<string>>, order: seq<string>, i: nat) returns (p: seq<string>)
    requires Simple(order) && i < |order|
    requires forall j :: 0 <= j < |order| - 1 ==> HasCaller(g, order, [], j)
    ensures Kept(g, order, p) && p[0] == order[|order| - 1] && p[|p| - 1] == order[i]
    decreases |order| - i
  {
    if i == |order| - 1 {
      p := [order[i]];
    } else {
      var k := CallerAfter(g, order, i);
      var q := Climb(g, order, k);
      assert Pos(order, order[i]) == i && Pos(order, order[k]) == k;
      AppendKept(g, order, q, order[i]);
      p := q + [order[i]];
    }
  }

  // Every function reachable from the root ends a call path that the total pays for.
  lemma EveryReachableCharged(frames: map<string, nat>, g: map<string, set<string>>, root: string, x: string)
    requires Reachable(g, root, x)
    ensures exists p :: PathTo(g, p, root, x) && Simple(p) && FrameSum(frames, p) <= ChainBytes(frames, g, root).bytes
  {
    var memo := Finished(frames, g, root);
    WalkCompletes(frames, g, root);
    FinishOrderFixed(frames, g, root);
    var route :| PathTo(g, route, root, x);
    ClosedContains(g, Elems(memo.order), route);
    var p := Climb(g, memo.order, Pos(memo.order, x));
    KeptSimple(g, memo.order, p);
    TotalBoundsKept(frames, g, root, p);
    assert PathTo(g, p, root, x);
  }

  // ----- When the total is the true maximum -----

  // No non-repeating call path from the root costs more than the total.
  ghost predicate Exact(frames: map<string, nat>, g: map<string, set<string>>, root: string) {
    forall p :: RootPath(g, root, p) ==> FrameSum(frames, p) <= ChainBytes(frames, g, root).bytes
  }

  ghost predicate Cycle(g: map<string, set<string>>, c: seq<string>) {
    |c| >= 2 && IsPath(g, c) && Simple(c) && c[0] in Succ(g, c[|c| - 1])
  }

  ghost predicate OnEveryRoute(g: map<string, set<string>>, root: string, h: string, x: string) {
    forall p :: PathTo(g, p, root, x) ==> h in p
  }

  // `h` lies on every route from the root into the cycle.
  ghost predicate Header(g: map<string, set<string>>, root: string, c: seq<string>, h: string) {
    h in c && forall x :: x in c ==> OnEveryRoute(g, root, h, x)
  }

  // Recursion other than a self-call can only be entered through one function.
  ghost predicate SingleEntry(g: map<string, set<string>>, root: string) {
    forall c :: Cycle(g, c) ==> exists h :: Header(g, root, c, h)
  }

  // The part of a path from a function to a caller of it is a cycle.
  lemma TailIsCycle(g: map<string, set<string>>, p: seq<string>, k: nat)
    requires IsPath(g, p) && Simple(p) && k < |p| - 1 && p[k] in Succ(g, p[|p| - 1])
    ensures Cycle(g, p[k..|p|])
  {
    SubPath(g, p, k, |p|);
  }

  lemma PrefixRoute(g: map<string, set<string>>, root: string, p: seq<string>, k: nat)
    requires IsPath(g, p) && p[0] == root && k < |p|
    ensures PathTo(g, p[0..k + 1], root, p[k])
  {
    SubPath(g, p, 0, k + 1);
  }

  // A non-repeating path meets its own tail from `k` only at `k` before passing it.
  lemma MeetsTailOnce(p: seq<string>, k: nat, h: string)
    requires Simple(p) && k < |p| && h in p[0..k + 1] && h in p[k..|p|]
    ensures h == p[k]
  {
    var j :| 0 <= j < k + 1 && p[0..k + 1][j] == h;
    var m :| 0 <= m < |p| - k && p[k..|p|][m] == h;
    assert p[j] == h && p[k + m] == h;
  }

  lemma CutTargetDominates(g: map<string, set<string>>, root: string, x: string, c: string)
    requires SingleEntry(g, root) && CutFrom(g, root, x, c) && c in Succ(g, x) && c != x
    ensures OnEveryRoute(g, root, c, x)
  {
    var p :| PathTo(g, p, root, x) && Simple(p) && c in p;
    var k :| 0 <= k < |p| && p[k] == c;
    TailIsCycle(g, p, k);
    var loop := p[k..|p|];
    var h :| Header(g, root, loop, h);
    HeaderIsCutTarget(g, root, p, k, h);
    assert loop[|loop| - 1] == x;
  }

  lemma HeaderIsCutTarget(g: map<string, set<string>>, root: string, p: seq<string>, k: nat, h: string)
    requires IsPath(g, p) && p[0] == root && Simple(p) && k < |p| && Header(g, root, p[k..|p|], h)
    ensures h == p[k]
  {
    PrefixRoute(g, root, p, k);
    assert p[k..|p|][0] == p[k];
    assert OnEveryRoute(g, root, h, p[k]);
    MeetsTailOnce(p, k, h);
  }

  // A cut call lies on no non-repeating path from the root.
  lemma StepNotCut(g: map<string, set<string>>, root: string, p: seq<string>, i: nat)
    requires SingleEntry(g, root) && RootPath(g, root, p) && i < |p| - 1
    ensures !CutFrom(g, root, p[i], p[i + 1])
  {
    if CutFrom(g, root, p[i], p[i + 1]) {
      assert Step(g, p, i);
      CutTargetDominates(g, root, p[i], p[i + 1]);
      PrefixRoute(g, root, p, i);
    }
  }

  lemma RootPathsKept(g: map<string, set<string>>, root: string, p: seq<string>)
    requires SingleEntry(g, root) && RootPath(g, root, p)
    ensures Kept(g, FinishOrder(g, root), p)
  {
    var order := FinishOrder(g, root);
    forall i | 0 <= i < |p| ensures p[i] in order { RootPathFinished(g, root, p, i); }
    forall i | 0 <= i < |p| - 1 ensures Pos(order, p[i + 1]) < Pos(order, p[i]) { RootPathDescends(g, root, p, i); }
  }

  lemma FinishedFacts(g: map<string, set<string>>, root: string)
    ensures var order := FinishOrder(g, root);
            && Simple(order) && root in order && Closed(g, Elems(order))
            && forall i :: 0 <= i < |order| ==> CalleesDone(g, root, order, i)
  {
    WalkCompletes(map[], g, root);
    FinishOrderFixed(map[], g, root);
  }

  lemma RootPathFinished(g: map<string, set<string>>, root: string, p: seq<string>, i: nat)
    requires RootPath(g, root, p) && i < |p|
    ensures p[i] in FinishOrder(g, root)
  {
    FinishedFacts(g, root);
    PrefixRoute(g, root, p, i);
    ClosedContains(g, Elems(FinishOrder(g, root)), p[0..i + 1]);
  }

  lemma CalleeEarlier(g: map<string, set<string>>, root: string, order: seq<string>, x: string, c: string)
    requires Simple(order) && x in order && c in order && CalleesDone(g, root, order, Pos(order, x))
    requires c in Succ(g, x) && c != x && !CutFrom(g, root, x, c)
    ensures Pos(order, c) < Pos(order, x)
  {
    EarlierPos(order, c, Pos(order, x));
  }

  lemma RootPathDescends(g: map<string, set<string>>, root: string, p: seq<string>, i: nat)
    requires SingleEntry(g, root) && RootPath(g, root, p) && i < |p| - 1
    ensures p[i] in FinishOrder(g, root) && p[i + 1] in FinishOrder(g, root)
    ensures Pos(FinishOrder(g, root), p[i + 1]) < Pos(FinishOrder(g, root), p[i])
  {
    FinishedFacts(g, root);
    RootPathFinished(g, root, p, i);
    RootPathFinished(g, root, p, i + 1);
    assert Step(g, p, i);
    StepNotCut(g, root, p, i);
    CalleeEarlier(g, root, FinishOrder(g, root), p[i], p[i + 1]);
  }

  lemma EarlierPos(order: seq<string>, x: string, n: nat)
    requires Simple(order) && n < |order| && x in order[..n]
    ensures Pos(order, x) < n
  {
    var k :| 0 <= k < n && order[k] == x;
  }

  // With single-entry recursion only, the memoised walk is exact.
  lemma SingleEntryExact(frames: map<string, nat>, g: map<string, set<string>>, root: string)
    requires SingleEntry(g, root)
    ensures Exact(frames, g, root)
  {
    forall p | RootPath(g, root, p) ensures FrameSum(frames, p) <= ChainBytes(frames, g, root).bytes {
      RootPathsKept(g, root, p);
      TotalBoundsKept(frames, g, root, p);
    }
  }

  // In particular where the only recursion is a function calling itself.
  lemma AcyclicExact(frames: map<string, nat>, g: map<string, set<string>>, root: string)
    requires forall c :: !Cycle(g, c)
    ensures Exact(frames, g, root)
  {
    SingleEntryExact(frames, g, root);
  }

  // ----- Exact for every frame measurement, if and only if -----

  // Every non-repeating path from the root runs inside one that was never cut.
  ghost predicate Covered(g: map<string, set<string>>, root: string) {
    forall p :: RootPath(g, root, p) ==>
      exists k :: Kept(g, FinishOrder(g, root), k) && k[0] == root && Elems(p) <= Elems(k)
  }

  lemma {:induction false} FrameSumSplit(frames: map<string, nat>, a: seq<string>, b: seq<string>)
    ensures FrameSum(frames, a + b) == FrameSum(frames, a) + FrameSum(frames, b)
  {
    if a == [] {
      assert a + b == b;
    } else {
      assert (a + b)[1..] == a[1..] + b;
      FrameSumSplit(frames, a[1..], b);
    }
  }

  lemma RemoveOne(frames: map<string, nat>, k: seq<string>, x: string) returns (rest: seq<string>)
    requires Simple(k) && x in k
    ensures Simple(rest) && FrameSum(frames, k) == Own(frames, x) + FrameSum(frames, rest)
    ensures Elems(k) - {x} <= Elems(rest)
  {
    var i :| 0 <= i < |k| && k[i] == x;
    rest := k[..i] + k[i + 1..];
    RemovedSum(frames, k, i);
    RemovedSimple(k, i);
    forall y | y in k && y != x ensures y in rest {
      var j :| 0 <= j < |k| && k[j] == y;
      assert if j < i then rest[j] == y else rest[j - 1] == y;
    }
  }

  lemma RemovedSum(frames: map<string, nat>, k: seq<string>, i: nat)
    requires i < |k|
    ensures FrameSum(frames, k) == Own(frames, k[i]) + FrameSum(frames, k[..i] + k[i + 1..])
  {
    var tail := [k[i]] + k[i + 1..];
    assert k == k[..i] + tail && tail[1..] == k[i + 1..];
    FrameSumSplit(frames, k[..i], tail);
    FrameSumSplit(frames, k[..i], k[i + 1..]);
  }

  lemma RemovedSimple(k: seq<string>, i: nat)
    requires Simple(k) && i < |k|
    ensures Simple(k[..i] + k[i + 1..])
  {
  }

  lemma {:induction false} FrameSumMonotone(frames: map<string, nat>, p: seq<string>, k: seq<string>)
    requires Simple(p) && Simple(k) && Elems(p) <= Elems(k)
    ensures FrameSum(frames, p) <= FrameSum(frames, k)
    decreases |p|
  {
    if p != [] {
      assert p[0] in Elems(p);
      var rest := RemoveOne(frames, k, p[0]);
      assert Elems(p[1..]) <= Elems(k) - {p[0]};
      FrameSumMonotone(frames, p[1..], rest);
    }
  }

  // One byte for each function of `p`, none for any other.
  ghost function Unit(p: seq<string>): map<string, nat> {
    map x | x in p :: 1
  }

  lemma {:induction false} UnitSum(p: seq<string>, k: seq<string>)
    requires Simple(k)
    ensures FrameSum(Unit(p), k) == |Elems(k) * Elems(p)|
    decreases |k|
  {
    if k != [] {
      UnitSum(p, k[1..]);
      assert k[0] !in k[1..];
      SharedFirst(p, k);
    }
  }

  lemma SharedFirst(p: seq<string>, k: seq<string>)
    requires k != [] && k[0] !in k[1..]
    ensures |Elems(k) * Elems(p)| == |Elems(k[1..]) * Elems(p)| + if k[0] in p then 1 else 0
  {
    assert Elems(k) == {k[0]} + Elems(k[1..]);
    assert Elems(k) * Elems(p) == Elems(k[1..]) * Elems(p) + if k[0] in p then {k[0]} else {};
  }

  lemma SubsetFull<T>(a: set<T>, b: set<T>)
    requires |b| <= |a * b|
    ensures b <= a
  {
    var rest := b - a * b;
    assert |rest| == |b| - |a * b|;
    assert rest == {};
  }

  lemma ExactForAllFramesOnlyIfCovered(g: map<string, set<string>>, root: string, p: seq<string>)
    requires RootPath(g, root, p) && Exact(Unit(p), g, root)
    ensures exists k :: Kept(g, FinishOrder(g, root), k) && k[0] == root && Elems(p) <= Elems(k)
  {
    var frames := Unit(p);
    var k := Names(ChainBytes(frames, g, root).path);
    TotalIsReportedPath(frames, g, root);
    UnitSum(p, p);
    UnitSum(p, k);
    assert Elems(p) * Elems(p) == Elems(p);
    SubsetFull(Elems(k), Elems(p));
  }

  lemma ExactForAllFramesIffCovered(g: map<string, set<string>>, root: string)
    ensures (forall frames :: Exact(frames, g, root)) <==> Covered(g, root)
  {
    if Covered(g, root) {
      forall frames: map<string, nat> ensures Exact(frames, g, root) {
        forall p | RootPath(g, root, p) ensures FrameSum(frames, p) <= ChainBytes(frames, g, root).bytes {
          var k :| Kept(g, FinishOrder(g, root), k) && k[0] == root && Elems(p) <= Elems(k);
          KeptSimple(g, FinishOrder(g, root), k);
          FrameSumMonotone(frames, p, k);
          TotalBoundsKept(frames, g, root, k);
        }
      }
    }
    if forall frames :: Exact(frames, g, root) {
      forall p | RootPath(g, root, p)
        ensures exists k :: Kept(g, FinishOrder(g, root), k) && k[0] == root && Elems(p) <= Elems(k)
      {
        ExactForAllFramesOnlyIfCovered(g, root, p);
      }
    }
  }
}
