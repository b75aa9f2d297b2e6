/** The walk as the auditor runs it, sharing one memo dictionary between recursive
    calls, and the chain bound it enforces on every declared root. */
module StackAudit {
  import opened Orders
  import opened Paths
  import opened StackChain
  import opened ChainBounds

  class ChainWalk {
    const frames: map<string, nat>
    const calls: map<string, set<string>>
    const indirect: map<string, set<string>>
    var best: map<string, Deep>
    var order: seq<string>  // the keys of `best`, oldest first

    constructor (frames: map<string, nat>, calls: map<string, set<string>>, indirect: map<string, set<string>>)
      ensures this.frames == frames && this.calls == calls && this.indirect == indirect
      ensures best == map[] && order == []
    {
      this.frames, this.calls, this.indirect := frames, calls, indirect;
      best, order := map[], [];
    }

    ghost function Edges(): map<string, set<string>> {
      Merge(calls, indirect)
    }

    ghost function Current(): Memo
      reads this
    {
      Memo(order, best)
    }

    method Visit(name: string, stack: seq<string>) returns (d: Deep)
      modifies this
      ensures (d, Current()) == Walk(frames, Edges(), name, stack, old(Current()))
      decreases Unvisited(Edges(), stack), 1, 0
    {
      if name in stack {
        return Deep(0, [CycleCut(name)]);
      }
      if name in best {
        return best[name];
      }
      WalkUnfolds(frames, Edges(), name, stack, Current());
      var deepest := DeepestCallee(name, stack);
      d := Over(frames, name, deepest);
      if stack == [] {
        return;
      }
      best, order := best[name := d], order + [name];
    }

    // The loop of `walk` over the sorted callees of `name`.
    method DeepestCallee(name: string, stack: seq<string>) returns (deepest: Deep)
      requires name !in stack
      modifies this
      ensures (deepest, Current())
           == Scan(frames, Edges(), name, stack, SortedSet(Succ(Edges(), name)), Deep(0, []), old(Current()))
      decreases Unvisited(Edges(), stack), 0, 1
    {
      deepest := Deep(0, []);
      var callees := SortedSet(Succ(calls, name) + Succ(indirect, name));
      ghost var g := Edges();
      MergedCallees(calls, indirect, name);
      ghost var goal := Scan(frames, g, name, stack, callees, Deep(0, []), Current());
      var i := 0;
      while i < |callees|
        invariant 0 <= i <= |callees|
        invariant Scan(frames, g, name, stack, callees[i..], deepest, Current()) == goal
      {
        var callee := callees[i];
        ScanUnfolds(frames, g, name, stack, callees, i, deepest, Current());
        if callee != name {
          deepest := Deeper(name, stack, callee, deepest);
        }
        i := i + 1;
      }
    }

    method Deeper(name: string, stack: seq<string>, callee: string, deepest: Deep) returns (d: Deep)
      requires name !in stack && callee in Succ(Edges(), name)
      modifies this
      ensures var (sub, memo) := Walk(frames, Edges(), callee, stack + [name], old(Current()));
              Current() == memo && d == if sub.bytes > deepest.bytes then sub else deepest
      decreases Unvisited(Edges(), stack), 0, 0
    {
      DeeperStack(Edges(), stack, name);
      var sub := Visit(callee, stack + [name]);
      d := if sub.bytes > deepest.bytes then sub else deepest;
    }
  }

  lemma MergedCallees(calls: map<string, set<string>>, indirect: map<string, set<string>>, name: string)
    ensures Succ(Merge(calls, indirect), name) == Succ(calls, name) + Succ(indirect, name)
  {
  }

  lemma WalkUnfolds(frames: map<string, nat>, g: map<string, set<string>>, name: string, stack: seq<string>, memo: Memo)
    requires name !in stack && name !in memo.at
    ensures
      var (deepest, m) := Scan(frames, g, name, stack, SortedSet(Succ(g, name)), Deep(0, []), memo);
      var d := Over(frames, name, deepest);
      Walk(frames, g, name, stack, memo) == (d, if stack == [] then m else Insert(m, name, d))
  {
  }

  lemma ScanUnfolds(frames: map<string, nat>, g: map<string, set<string>>, name: string, stack: seq<string>,
                    callees: seq<string>, i: nat, deepest: Deep, memo: Memo)
    requires name !in stack && i < |callees| && forall c :: c in callees ==> c in Succ(g, name)
    ensures Scan(frames, g, name, stack, callees[i..], deepest, memo)
         == if callees[i] == name then Scan(frames, g, name, stack, callees[i + 1..], deepest, memo)
            else var (sub, memo') := Walk(frames, g, callees[i], stack + [name], memo);
              Scan(frames, g, name, stack, callees[i + 1..], if sub.bytes > deepest.bytes then sub else deepest, memo')
  {
    assert callees[i..][0] == callees[i] && callees[i..][1..] == callees[i + 1..];
  }

  // `chain_bytes`: the total, and the path it names.
  method MeasureChain(root: string, frames: map<string, nat>, calls: map<string, set<string>>,
                      indirect: map<string, set<string>>)
    returns (total: nat, path: seq<Entry>)
    ensures Deep(total, path) == ChainBytes(frames, Merge(calls, indirect), root)
    ensures RootPath(Merge(calls, indirect), root, Names(path)) && FrameSum(frames, Names(path)) == total
    ensures forall x :: Reachable(Merge(calls, indirect), root, x) ==>
              exists p :: PathTo(Merge(calls, indirect), p, root, x) && Simple(p) && FrameSum(frames, p) <= total
    ensures SingleEntry(Merge(calls, indirect), root) ==>
              forall p :: RootPath(Merge(calls, indirect), root, p) ==> FrameSum(frames, p) <= total
  {
    var walk := new ChainWalk(frames, calls, indirect);
    var d := walk.Visit(root, []);
    total, path := d.bytes, d.path;
    ghost var g := Merge(calls, indirect);
    TotalIsReportedPath(frames, g, root);
    forall x | Reachable(g, root, x)
      ensures exists p :: PathTo(g, p, root, x) && Simple(p) && FrameSum(frames, p) <= total
    {
      EveryReachableCharged(frames, g, root, x);
    }
    if SingleEntry(g, root) { SingleEntryExact(frames, g, root); }
  }

  // ----- The manifest -----

  datatype Target = Target(kind: string, symbol: string)
  datatype IndirectEdge = IndirectEdge(caller: string, profiles: set<string>, targets: seq<Target>)
  datatype Expansion = Expansion(root: string, maxFrameBytes: nat, maxChainBytes: nat)
  datatype Manifest = Manifest(roots: seq<string>, maxFrameBytes: nat, maxChainBytes: nat,
                               expansions: seq<Expansion>, edges: seq<IndirectEdge>)

  predicate Resolves(t: Target) {
    t.kind == "internal" && t.symbol != ""
  }

  // The manifest declares that `caller` may reach `symbol` through a pointer.
  ghost predicate Declared(edges: seq<IndirectEdge>, profile: string, caller: string, symbol: string) {
    && symbol != ""
    && exists e :: e in edges && profile in e.profiles && e.caller == caller && Target("internal", symbol) in e.targets
  }

  // The same as a graph: a caller is listed when something is declared for it.
  function DeclaredPairs(edges: seq<IndirectEdge>, profile: string): set<(string, string)> {
    set e, t | e in edges && profile in e.profiles && t in e.targets && Resolves(t) :: (e.caller, t.symbol)
  }

  function IndirectGraph(edges: seq<IndirectEdge>, profile: string): map<string, set<string>> {
    var pairs := DeclaredPairs(edges, profile);
    var callers := set p | p in pairs :: p.0;
    map caller | caller in callers :: set p | p in pairs && p.0 == caller :: p.1
  }

  lemma IndirectGraphIs(edges: seq<IndirectEdge>, profile: string, caller: string, symbol: string)
    ensures symbol in Succ(IndirectGraph(edges, profile), caller) <==> Declared(edges, profile, caller, symbol)
  {
    var pairs := DeclaredPairs(edges, profile);
    if Declared(edges, profile, caller, symbol) { assert Resolves(Target("internal", symbol)); }
    assert (caller, symbol) in pairs <==> Declared(edges, profile, caller, symbol);
    if (caller, symbol) in pairs { assert (caller, symbol).0 == caller && (caller, symbol).1 == symbol; }
  }

  lemma IndirectGraphUnique(edges: seq<IndirectEdge>, profile: string, g: map<string, set<string>>)
    requires forall caller, symbol :: symbol in Succ(g, caller) <==> Declared(edges, profile, caller, symbol)
    requires forall caller :: caller in g ==> g[caller] != {}
    ensures g == IndirectGraph(edges, profile)
  {
    var h := IndirectGraph(edges, profile);
    forall caller ensures Succ(g, caller) == Succ(h, caller) {
      forall symbol ensures symbol in Succ(g, caller) <==> symbol in Succ(h, caller) {
        IndirectGraphIs(edges, profile, caller, symbol);
      }
    }
    forall caller ensures caller in g <==> caller in h {
      assert Succ(g, caller) == Succ(h, caller);
      if caller in h { ListedHasTarget(edges, profile, caller); }
    }
    forall caller | caller in g ensures g[caller] == h[caller] { assert Succ(g, caller) == Succ(h, caller); }
  }

  lemma ListedHasTarget(edges: seq<IndirectEdge>, profile: string, caller: string)
    requires caller in IndirectGraph(edges, profile)
    ensures IndirectGraph(edges, profile)[caller] != {}
  {
    var p :| p in DeclaredPairs(edges, profile) && p.0 == caller;
    assert p.1 in IndirectGraph(edges, profile)[caller];
  }

  function AddEdge(g: map<string, set<string>>, caller: string, symbol: string): map<string, set<string>> {
    g[caller := Succ(g, caller) + {symbol}]
  }

  method DeclaredIndirectEdges(edges: seq<IndirectEdge>, profile: string) returns (indirect: map<string, set<string>>)
    ensures forall caller, symbol :: symbol in Succ(indirect, caller) <==> Declared(edges, profile, caller, symbol)
    ensures forall caller :: caller in indirect ==> indirect[caller] != {}
  {
    indirect := map[];
    for i := 0 to |edges|
      invariant forall caller, symbol ::
        symbol in Succ(indirect, caller) <==> Declared(edges[..i], profile, caller, symbol)
      invariant forall caller :: caller in indirect ==> indirect[caller] != {}
    {
      var e := edges[i];
      assert edges[..i + 1] == edges[..i] + [e];
      if profile in e.profiles {
        for j := 0 to |e.targets|
          invariant forall caller, symbol :: symbol in Succ(indirect, caller) <==>
                      Declared(edges[..i] + [e.(targets := e.targets[..j])], profile, caller, symbol)
          invariant forall caller :: caller in indirect ==> indirect[caller] != {}
        {
          var t := e.targets[j];
          ghost var before := indirect;
          if Resolves(t) {
            indirect := AddEdge(indirect, e.caller, t.symbol);
          }
          forall caller, symbol
            ensures symbol in Succ(indirect, caller) <==>
                    Declared(edges[..i] + [e.(targets := e.targets[..j + 1])], profile, caller, symbol)
          {
            DeclaredOneMore(edges[..i], e, j, profile, caller, symbol);
          }
        }
        assert e.(targets := e.targets[..|e.targets|]) == e;
      } else {
        forall caller, symbol
          ensures Declared(edges[..i + 1], profile, caller, symbol) <==> Declared(edges[..i], profile, caller, symbol)
        {
        }
      }
    }
    assert edges[..|edges|] == edges;
  }

  lemma DeclaredOneMore(before: seq<IndirectEdge>, e: IndirectEdge, j: nat, profile: string, caller: string,
                        symbol: string)
    requires j < |e.targets| && profile in e.profiles
    ensures Declared(before + [e.(targets := e.targets[..j + 1])], profile, caller, symbol) <==>
            Declared(before + [e.(targets := e.targets[..j])], profile, caller, symbol)
            || (caller == e.caller && Resolves(e.targets[j]) && e.targets[j].symbol == symbol)
  {
    var short := e.(targets := e.targets[..j]);
    var long := e.(targets := e.targets[..j + 1]);
    var t := Target("internal", symbol);
    assert long.targets == short.targets + [e.targets[j]];
    assert t == e.targets[j] <==> e.targets[j].kind == "internal" && e.targets[j].symbol == symbol;
    if Declared(before + [long], profile, caller, symbol) {
      var d :| d in before + [long] && profile in d.profiles && d.caller == caller && t in d.targets;
      if d in before { assert d in before + [short]; } else { assert short in before + [short]; }
    }
    if Declared(before + [short], profile, caller, symbol) {
      var d :| d in before + [short] && profile in d.profiles && d.caller == caller && t in d.targets;
      if d in before { assert d in before + [long]; } else { assert long in before + [long] && t in long.targets; }
    }
    assert long in before + [long] && e.targets[j] in long.targets;
  }

  // Later entries for one root replace earlier ones.
  function ExpansionTable(entries: seq<Expansion>): map<string, Expansion> {
    if entries == [] then map[]
    else
      var last := entries[|entries| - 1];
      ExpansionTable(entries[..|entries| - 1])[last.root := last]
  }

  // `root_bounds`: an expansion root brings its own limits, any other root takes the manifest's.
  function RootBounds(m: Manifest, root: string): (nat, nat) {
    var table := ExpansionTable(m.expansions);
    if root in table then (table[root].maxFrameBytes, table[root].maxChainBytes)
    else (m.maxFrameBytes, m.maxChainBytes)
  }

  // The entry that counts for an expansion root: the last one with its name.
  ghost predicate Decides(m: Manifest, root: string, k: nat) {
    && k < |m.expansions| && m.expansions[k].root == root
    && forall later :: k < later < |m.expansions| ==> m.expansions[later].root != root
  }

  ghost predicate Ordinary(m: Manifest, root: string) {
    forall e :: e in m.expansions ==> e.root != root
  }

  // The limits a root is judged by.
  ghost predicate FrameLimit(m: Manifest, root: string, bound: nat) {
    || (Ordinary(m, root) && bound == m.maxFrameBytes)
    || exists k: nat :: Decides(m, root, k) && bound == m.expansions[k].maxFrameBytes
  }

  ghost predicate ChainLimit(m: Manifest, root: string, bound: nat) {
    || (Ordinary(m, root) && bound == m.maxChainBytes)
    || exists k: nat :: Decides(m, root, k) && bound == m.expansions[k].maxChainBytes
  }

  lemma {:induction false} TableHas(entries: seq<Expansion>, root: string) returns (k: nat)
    ensures root in ExpansionTable(entries) <==> exists e :: e in entries && e.root == root
    ensures root in ExpansionTable(entries) ==>
      && k < |entries| && entries[k] == ExpansionTable(entries)[root] && entries[k].root == root
      && forall later :: k < later < |entries| ==> entries[later].root != root
    decreases |entries|
  {
    k := 0;
    if entries != [] {
      var n := |entries| - 1;
      assert entries == entries[..n] + [entries[n]];
      if entries[n].root == root {
        k := n;
        assert entries[n] in entries;
      } else {
        k := TableHas(entries[..n], root);
      }
    }
  }

  lemma BoundsAreLimits(m: Manifest, root: string)
    ensures FrameLimit(m, root, RootBounds(m, root).0) && ChainLimit(m, root, RootBounds(m, root).1)
  {
    var k := TableHas(m.expansions, root);
    if root in ExpansionTable(m.expansions) { assert Decides(m, root, k); }
  }

  // A root has one limit of each kind.
  lemma LimitsAreUnique(m: Manifest, root: string, a: nat, b: nat)
    ensures ChainLimit(m, root, a) && ChainLimit(m, root, b) ==> a == b
    ensures FrameLimit(m, root, a) && FrameLimit(m, root, b) ==> a == b
  {
    forall j: nat, k: nat | Decides(m, root, j) && Decides(m, root, k) ensures j == k {}
    forall k: nat | Decides(m, root, k) ensures !Ordinary(m, root) { assert m.expansions[k] in m.expansions; }
  }

  // ----- Frames of the roots -----

  datatype FrameFinding = NoFrame(root: string) | FrameOver(root: string, frame: nat, bound: nat)

  ghost predicate FrameFits(m: Manifest, frames: map<string, nat>, root: string) {
    root in frames && forall bound :: FrameLimit(m, root, bound) ==> frames[root] <= bound
  }

  ghost predicate FrameJustified(m: Manifest, frames: map<string, nat>, f: FrameFinding) {
    && f.root in m.roots
    && match f
       case NoFrame(root) => root !in frames
       case FrameOver(root, frame, bound) =>
         root in frames && frames[root] == frame > bound && FrameLimit(m, root, bound)
  }

  // The frame part of `analyze`: every linked root without a frame that fits is reported, and nothing else.
  method FrameFindings(m: Manifest, symbols: set<string>, frames: map<string, nat>)
    returns (findings: seq<FrameFinding>)
    ensures findings == [] <==> forall root :: root in m.roots && root in symbols ==> FrameFits(m, frames, root)
    ensures forall f :: f in findings ==> f.root in symbols && FrameJustified(m, frames, f)
    ensures forall root :: root in m.roots && root in symbols && !FrameFits(m, frames, root) ==>
      exists f :: f in findings && f.root == root
  {
    findings := [];
    for i := 0 to |m.roots|
      invariant findings == []
        <==> forall root :: root in m.roots[..i] && root in symbols ==> FrameFits(m, frames, root)
      invariant forall f :: f in findings ==> f.root in symbols && FrameJustified(m, frames, f)
      invariant forall root :: root in m.roots[..i] && root in symbols && !FrameFits(m, frames, root) ==>
        exists f :: f in findings && f.root == root
    {
      var root := m.roots[i];
      assert m.roots[..i + 1] == m.roots[..i] + [root];
      if root in symbols {
        var found := FrameFindingOf(m, frames, root);
        ghost var before := findings;
        findings := findings + found;
        forall f | f in before || f in found ensures f in findings {}
        if found != [] { assert found[0] in findings && found[0].root == root; }
      }
    }
    assert m.roots[..|m.roots|] == m.roots;
  }

  method FrameFindingOf(m: Manifest, frames: map<string, nat>, root: string) returns (found: seq<FrameFinding>)
    requires root in m.roots
    ensures found == [] <==> FrameFits(m, frames, root)
    ensures forall f :: f in found ==> f.root == root && FrameJustified(m, frames, f)
  {
    var bound := RootBounds(m, root).0;
    BoundsAreLimits(m, root);
    forall b ensures FrameLimit(m, root, b) ==> b == bound { LimitsAreUnique(m, root, b, bound); }
    if root !in frames { return [NoFrame(root)]; }
    if frames[root] > bound { return [FrameOver(root, frames[root], bound)]; }
    return [];
  }

  // ----- Chains from the roots -----

  datatype ChainFinding = ChainFinding(root: string, total: nat, bound: nat, path: seq<Entry>)

  ghost predicate Fits(m: Manifest, frames: map<string, nat>, g: map<string, set<string>>, root: string) {
    forall bound :: ChainLimit(m, root, bound) ==> ChainBytes(frames, g, root).bytes <= bound
  }

  // A finding names a declared root, its limit, and a real path that exceeds it.
  ghost predicate Justified(m: Manifest, symbols: set<string>, frames: map<string, nat>, g: map<string, set<string>>,
                            f: ChainFinding)
  {
    && f.root in m.roots && f.root in symbols
    && ChainLimit(m, f.root, f.bound) && f.bound < f.total
    && RootPath(g, f.root, Names(f.path)) && FrameSum(frames, Names(f.path)) == f.total
  }

  ghost predicate Reported(findings: seq<ChainFinding>, root: string) {
    exists f :: f in findings && f.root == root
  }

  // The direct calls with the declared indirect ones.
  ghost function CallGraph(m: Manifest, profile: string, calls: map<string, set<string>>): map<string, set<string>> {
    Merge(calls, IndirectGraph(m.edges, profile))
  }

  // The chain part of `analyze`.
  method ChainFindings(m: Manifest, profile: string, symbols: set<string>, frames: map<string, nat>,
                       calls: map<string, set<string>>)
    returns (findings: seq<ChainFinding>)
    ensures findings == [] <==> forall root :: root in m.roots && root in symbols ==>
      Fits(m, frames, CallGraph(m, profile, calls), root)
    ensures forall f :: f in findings ==> Justified(m, symbols, frames, CallGraph(m, profile, calls), f)
    ensures forall root :: root in m.roots && root in symbols ==>
      Fits(m, frames, CallGraph(m, profile, calls), root) || Reported(findings, root)
  {
    var edges := DeclaredIndirectEdges(m.edges, profile);
    IndirectGraphUnique(m.edges, profile, edges);
    findings := FindingsOver(m, symbols, frames, calls, edges);
  }

  method FindingsOver(m: Manifest, symbols: set<string>, frames: map<string, nat>, calls: map<string, set<string>>,
                      edges: map<string, set<string>>)
    returns (findings: seq<ChainFinding>)
    ensures findings == [] <==> forall root :: root in m.roots && root in symbols ==>
      Fits(m, frames, Merge(calls, edges), root)
    ensures forall f :: f in findings ==> Justified(m, symbols, frames, Merge(calls, edges), f)
    ensures forall root :: root in m.roots && root in symbols ==>
      Fits(m, frames, Merge(calls, edges), root) || Reported(findings, root)
  {
    ghost var g := Merge(calls, edges);
    findings := [];
    for i := 0 to |m.roots|
      invariant findings == [] <==> forall root :: root in m.roots[..i] && root in symbols ==> Fits(m, frames, g, root)
      invariant forall f :: f in findings ==> Justified(m, symbols, frames, g, f)
      invariant forall root :: root in m.roots[..i] && root in symbols ==>
        Fits(m, frames, g, root) || Reported(findings, root)
    {
      var root := m.roots[i];
      assert m.roots[..i + 1] == m.roots[..i] + [root];
      if root in symbols {
        var found := FindingOf(m, symbols, frames, calls, edges, root);
        MoreReported(findings, found);
        findings := findings + found;
      }
    }
    assert m.roots[..|m.roots|] == m.roots;
  }

  lemma MoreReported(findings: seq<ChainFinding>, found: seq<ChainFinding>)
    ensures forall root :: Reported(findings, root) || Reported(found, root) ==> Reported(findings + found, root)
  {
    forall root | Reported(findings, root) || Reported(found, root) ensures Reported(findings + found, root) {
      var f :| (f in findings || f in found) && f.root == root;
      assert f in findings + found;
    }
  }

  method FindingOf(m: Manifest, symbols: set<string>, frames: map<string, nat>, calls: map<string, set<string>>,
                   edges: map<string, set<string>>, root: string)
    returns (found: seq<ChainFinding>)
    requires root in m.roots && root in symbols
    ensures found == [] <==> Fits(m, frames, Merge(calls, edges), root)
    ensures forall f :: f in found ==> Justified(m, symbols, frames, Merge(calls, edges), f)
    ensures Fits(m, frames, Merge(calls, edges), root) || Reported(found, root)
  {
    var bound := RootBounds(m, root).1;
    BoundsAreLimits(m, root);
    forall b ensures ChainLimit(m, root, b) ==> b == bound { LimitsAreUnique(m, root, b, bound); }
    var total, path := MeasureChain(root, frames, calls, edges);
    if total <= bound { return []; }
    found := [ChainFinding(root, total, bound, path)];
    assert found[0] in found && !Fits(m, frames, Merge(calls, edges), root);
  }

  // One call on the stack: direct, or through a declared pointer.
  ghost predicate MayCall(m: Manifest, profile: string, calls: map<string, set<string>>, caller: string,
                          callee: string)
  {
    callee in Succ(calls, caller) || Declared(m.edges, profile, caller, callee)
  }

  // When no chain is reported, no non-repeating run of direct and declared calls from a
  // declared root outgrows that root's limit, provided recursion is single-entry.
  lemma NoFindingBoundsEveryChain(m: Manifest, profile: string, frames: map<string, nat>,
                                  calls: map<string, set<string>>, root: string, p: seq<string>, bound: nat)
    requires Fits(m, frames, CallGraph(m, profile, calls), root) && SingleEntry(CallGraph(m, profile, calls), root)
    requires p != [] && p[0] == root && Simple(p) && ChainLimit(m, root, bound)
    requires forall i :: 0 <= i < |p| - 1 ==> MayCall(m, profile, calls, p[i], p[i + 1])
    ensures FrameSum(frames, p) <= bound
  {
    var g := CallGraph(m, profile, calls);
    forall i | 0 <= i < |p| - 1 ensures Step(g, p, i) {
      assert MayCall(m, profile, calls, p[i], p[i + 1]);
      IndirectGraphIs(m.edges, profile, p[i], p[i + 1]);
    }
    SingleEntryExact(frames, g, root);
    assert RootPath(g, root, p);
  }
}
