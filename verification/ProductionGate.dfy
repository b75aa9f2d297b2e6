/** The production-reachability gate: one node per function name, one edge per
    mention, and the verdict on staged, required and forbidden names. */
module ProductionGate {
  import opened Outcomes
  import opened Paths
  import opened MentionGraph
  import opened GateRows

  // One function definition: its name, the file that defines it, and every identifier its body mentions.
  datatype Body = Body(name: string, file: string, mentions: set<string>)

  function DefinedNames(bodies: seq<Body>): set<string> {
    set b | b in bodies :: b.name
  }

  function Files(bodies: seq<Body>, name: string): seq<string> {
    if bodies == [] then []
    else
      var last := bodies[|bodies| - 1];
      Files(bodies[..|bodies| - 1], name) + if last.name == name then [last.file] else []
  }

  // Mentions of known names, other than the function's own.
  function Mentioned(bodies: seq<Body>, known: set<string>, name: string): set<string> {
    set b, c | b in bodies && b.name == name && c in b.mentions && c in known && c != name :: c
  }

  function MergedFrom(bodies: seq<Body>, known: set<string>): map<string, set<string>> {
    map n | n in DefinedNames(bodies) :: Mentioned(bodies, known, n)
  }

  // The graph the gate walks.
  function Merged(bodies: seq<Body>): map<string, set<string>> {
    MergedFrom(bodies, DefinedNames(bodies))
  }

  ghost predicate Defines(bodies: seq<Body>, n: string) {
    exists b :: b in bodies && b.name == n
  }

  ghost predicate Mentions(bodies: seq<Body>, n: string, c: string) {
    exists b :: b in bodies && b.name == n && c in b.mentions
  }

  // An edge is a mention of another name that is defined somewhere; every defined name is a node.
  ghost predicate EdgeIs(edges: map<string, set<string>>, bodies: seq<Body>, n: string, c: string) {
    && (c in Succ(edges, n) <==> c != n && Mentions(bodies, n, c) && Defines(bodies, c))
    && (n in edges <==> Defines(bodies, n))
  }

  lemma MergedIs(bodies: seq<Body>, n: string, c: string)
    ensures EdgeIs(Merged(bodies), bodies, n, c)
  {
    assert c in DefinedNames(bodies) <==> Defines(bodies, c);
    assert n in DefinedNames(bodies) <==> Defines(bodies, n);
    assert c in Mentioned(bodies, DefinedNames(bodies), n)
      <==> c != n && Mentions(bodies, n, c) && c in DefinedNames(bodies);
  }

  lemma DefinedNamesAppend(bodies: seq<Body>, b: Body)
    ensures DefinedNames(bodies + [b]) == DefinedNames(bodies) + {b.name}
  {
    forall n | n in DefinedNames(bodies) + {b.name} ensures n in DefinedNames(bodies + [b]) {
      if n == b.name {
        assert b in bodies + [b];
      } else {
        var d :| d in bodies && d.name == n;
        assert d in bodies + [b];
      }
    }
  }

  lemma MentionedAppend(bodies: seq<Body>, b: Body, known: set<string>, n: string)
    ensures Mentioned(bodies + [b], known, n)
         == Mentioned(bodies, known, n) + if n == b.name then (b.mentions * known) - {n} else {}
  {
    assert b in bodies + [b];
    assert forall d :: d in bodies ==> d in bodies + [b];
  }

  lemma MergedAppend(bodies: seq<Body>, b: Body, known: set<string>)
    ensures MergedFrom(bodies + [b], known)
         == MergedFrom(bodies, known)[b.name := Succ(MergedFrom(bodies, known), b.name)
                                      + ((b.mentions * known) - {b.name})]
  {
    DefinedNamesAppend(bodies, b);
    forall n | n in DefinedNames(bodies + [b])
      ensures Mentioned(bodies + [b], known, n)
           == if n == b.name then Succ(MergedFrom(bodies, known), n) + ((b.mentions * known) - {n})
             else Mentioned(bodies, known, n)
    {
      MentionedAppend(bodies, b, known, n);
    }
  }

  // `build_graph`.
  method BuildGraph(bodies: seq<Body>) returns (edges: map<string, set<string>>, definitions: map<string, seq<string>>)
    ensures edges == Merged(bodies)
    ensures definitions == DefinitionTable(bodies)
    ensures forall n, c :: EdgeIs(edges, bodies, n, c)
  {
    definitions := map[];
    for i := 0 to |bodies|
      invariant definitions == DefinitionTable(bodies[..i])
    {
      var b := bodies[i];
      assert bodies[..i + 1] == bodies[..i] + [b];
      DefinitionTableAppend(bodies[..i], b);
      definitions := definitions[b.name := (if b.name in definitions then definitions[b.name] else []) + [b.file]];
    }
    assert bodies[..|bodies|] == bodies;
    var known := definitions.Keys;
    edges := map[];
    for i := 0 to |bodies|
      invariant edges == MergedFrom(bodies[..i], known)
    {
      var b := bodies[i];
      assert bodies[..i + 1] == bodies[..i] + [b];
      MergedAppend(bodies[..i], b, known);
      edges := edges[b.name := Succ(edges, b.name) + ((b.mentions * known) - {b.name})];
    }
    assert known == DefinedNames(bodies);
    forall n, c ensures EdgeIs(edges, bodies, n, c) { MergedIs(bodies, n, c); }
  }

  // Each defined name with the files that define it, in order.
  function DefinitionTable(bodies: seq<Body>): map<string, seq<string>> {
    map n | n in DefinedNames(bodies) :: Files(bodies, n)
  }

  lemma DefinitionTableAppend(bodies: seq<Body>, b: Body)
    ensures
      var table := DefinitionTable(bodies);
      DefinitionTable(bodies + [b]) == table[b.name := (if b.name in table then table[b.name] else []) + [b.file]]
  {
    var table, table' := DefinitionTable(bodies), DefinitionTable(bodies + [b]);
    DefinedNamesAppend(bodies, b);
    NoFiles(bodies, b.name);
    FilesAppend(bodies, b, b.name);
    forall n | n in table' && n != b.name ensures table'[n] == table[n] { FilesAppend(bodies, b, n); }
  }

  lemma FilesAppend(bodies: seq<Body>, b: Body, n: string)
    ensures Files(bodies + [b], n) == Files(bodies, n) + if n == b.name then [b.file] else []
  {
    assert (bodies + [b])[..|bodies|] == bodies;
  }

  lemma {:induction false} NoFiles(bodies: seq<Body>, n: string)
    ensures n !in DefinedNames(bodies) <==> Files(bodies, n) == []
    decreases |bodies|
  {
    if bodies != [] {
      var rest, last := bodies[..|bodies| - 1], bodies[|bodies| - 1];
      LastApart(bodies);
      DefinedNamesAppend(rest, last);
      NoFiles(rest, n);
    }
  }

  // ----- Merging hides no route -----

  // A finer call graph on individual definitions: every call is a mention of the callee's name.
  ghost predicate Finer(bodies: seq<Body>, calls: map<nat, set<nat>>) {
    forall i :: i in calls ==>
      i < |bodies| && forall j :: j in calls[i] ==> j < |bodies| && bodies[j].name in bodies[i].mentions
  }

  lemma CallIsMention(bodies: seq<Body>, i: nat, j: nat)
    requires i < |bodies| && j < |bodies| && bodies[j].name in bodies[i].mentions
    ensures bodies[j].name == bodies[i].name || bodies[j].name in Succ(Merged(bodies), bodies[i].name)
  {
    var b, d := bodies[i], bodies[j];
    assert b in bodies && d in bodies;
    assert b.name in DefinedNames(bodies) && d.name in DefinedNames(bodies);
    if d.name != b.name {
      assert d.name in Mentioned(bodies, DefinedNames(bodies), b.name);
    }
  }

  // Whatever one definition can reach by calls, its name reaches in the merged graph.
  lemma {:induction false} MergingHidesNoRoute(bodies: seq<Body>, calls: map<nat, set<nat>>, p: seq<nat>)
    requires Finer(bodies, calls) && IsPath<nat>(calls, p) && p[0] < |bodies|
    ensures p[|p| - 1] < |bodies|
    ensures Reachable(Merged(bodies), bodies[p[0]].name, bodies[p[|p| - 1]].name)
    decreases |p|
  {
    var g := Merged(bodies);
    var first := bodies[p[0]].name;
    if |p| == 1 {
      ReachableSelf(g, first);
    } else {
      var q := p[0..|p| - 1];
      SubPath<nat>(calls, p, 0, |p| - 1);
      MergingHidesNoRoute(bodies, calls, q);
      assert Step<nat>(calls, p, |p| - 2);
      var i, j := p[|p| - 2], p[|p| - 1];
      assert j in calls[i];
      CallIsMention(bodies, i, j);
      var route :| PathTo(g, route, first, bodies[i].name);
      if bodies[j].name != bodies[i].name {
        ExtendPath(g, route, bodies[j].name);
        assert PathTo(g, route + [bodies[j].name], first, bodies[j].name);
      }
    }
  }

  // ----- The verdict -----

  // `ambiguous` excuses names for having several definitions, with their number; `viaCaller` excuses a name
  // because the caller it is recorded with has several.
  datatype Gate = Gate(roots: seq<string>, staged: seq<string>, required: seq<string>, forbidden: seq<string>,
                       forbiddenEdges: seq<(string, string)>, ambiguous: map<string, int>,
                       viaCaller: map<string, string>)

  datatype Refusal = NoRoots | OmitsDeclaredRoots | UndeclaredRoots | RootAbsent | RootAmbiguous
                   | StagedAbsent | StagedAmbiguous | AmbiguousStale | ViaCallerStale | RequiredAbsent(name: string)
                   | RequiredAmbiguous(name: string)

  datatype Violation = StagedReachable(name: string, path: seq<string>) | RequiredUnreachable(name: string)
                     | ForbiddenDefined(name: string) | ForbiddenReachable(name: string)
                     | ForbiddenEdge(caller: string, callee: string)

  datatype Verdict = Refused(why: Refusal) | Judged(violations: seq<Violation>, rows: seq<RowViolation>)

  // Exactly one definition carries this name.
  predicate DefinedOnce(bodies: seq<Body>, name: string) {
    |Files(bodies, name)| == 1
  }

  // The recorded excuses are still true: so many definitions, and not one; one definition, and an ambiguous caller.
  predicate AmbiguousTrue(gate: Gate, bodies: seq<Body>) {
    forall n :: n in gate.ambiguous && n != "note" ==> |Files(bodies, n)| == gate.ambiguous[n] && gate.ambiguous[n] != 1
  }

  predicate ViaCallerTrue(gate: Gate, bodies: seq<Body>) {
    forall n :: n in gate.viaCaller && n != "note" ==> DefinedOnce(bodies, n) && |Files(bodies, gate.viaCaller[n])| >= 2
  }

  // Of every excused name the manifest states how many definitions there are, and there is not one.
  ghost predicate CountsHold(gate: Gate, bodies: seq<Body>) {
    forall n :: n in gate.ambiguous && n != "note" ==>
      gate.ambiguous[n] == |Files(bodies, n)| && |Files(bodies, n)| != 1
  }

  // Every name excused by its caller has one definition, and the caller more.
  ghost predicate CallersHold(gate: Gate, bodies: seq<Body>) {
    forall n :: n in gate.viaCaller && n != "note" ==>
      |Files(bodies, n)| == 1 && |Files(bodies, gate.viaCaller[n])| > 1
  }

  ghost predicate Admissible(advertised: set<string>, gate: Gate, bodies: seq<Body>) {
    && CountsHold(gate, bodies) && CallersHold(gate, bodies)
    && gate.roots != [] && Elems(gate.roots) == advertised
    && (forall n :: n in gate.roots + gate.staged + gate.required ==> |Files(bodies, n)| == 1)
  }

  // Which of the first `k` bodies bear the name.
  ghost function Bearing(bodies: seq<Body>, n: string, k: nat): set<nat>
    requires k <= |bodies|
  {
    set j: nat | j < k && bodies[j].name == n
  }

  lemma BearingPrefix(bodies: seq<Body>, n: string, k: nat, l: nat)
    requires k <= l <= |bodies|
    ensures Bearing(bodies[..l], n, k) == Bearing(bodies, n, k)
  {
  }

  // How often a name is defined is how many bodies bear it.
  lemma {:induction false} FilesCount(bodies: seq<Body>, n: string)
    ensures |Files(bodies, n)| == |Bearing(bodies, n, |bodies|)|
    decreases |bodies|
  {
    if bodies != [] {
      var k := |bodies| - 1;
      FilesCount(bodies[..k], n);
      BearingPrefix(bodies, n, k, k);
      assert Bearing(bodies, n, |bodies|)
          == if bodies[k].name == n then Bearing(bodies, n, k) + {k} else Bearing(bodies, n, k);
    }
  }

  // Each of them is listed with its file, in their order.
  lemma {:induction false} FilesAt(bodies: seq<Body>, n: string, i: nat)
    requires i < |bodies| && bodies[i].name == n
    ensures var k := |Bearing(bodies, n, i)|; k < |Files(bodies, n)| && Files(bodies, n)[k] == bodies[i].file
    decreases |bodies|
  {
    var last := |bodies| - 1;
    BearingPrefix(bodies, n, i, last);
    if i < last {
      FilesAt(bodies[..last], n, i);
    } else {
      FilesCount(bodies[..last], n);
    }
  }

  // What a gate without violations asserts about the merged graph.
  ghost predicate Holds(gate: Gate, bodies: seq<Body>) {
    var g := Merged(bodies);
    && (forall n :: n in gate.staged ==> !FromRoots(g, gate.roots, n))
    && (forall n :: n in gate.required ==> FromRoots(g, gate.roots, n))
    && (forall n :: n in gate.forbidden ==> n !in DefinedNames(bodies) && !FromRoots(g, gate.roots, n))
    && (forall e :: e in gate.forbiddenEdges ==> e.1 !in Succ(g, e.0))
  }

  predicate AllOnce(bodies: seq<Body>, names: seq<string>) {
    forall n :: n in names ==> DefinedOnce(bodies, n)
  }

  ghost predicate ShortestRoute(g: map<string, set<string>>, roots: seq<string>, n: string, path: seq<string>) {
    RouteTo(g, roots, n, path) && forall p :: RouteTo(g, roots, n, p) ==> |path| <= |p|
  }

  ghost predicate StagedReported(vs: seq<Violation>, n: string) {
    exists path :: StagedReachable(n, path) in vs
  }

  // The staged rows of `evaluate_gate`: each reachable one with a shortest route to it.
  method StagedViolations(g: map<string, set<string>>, roots: seq<string>, reached: set<string>, staged: seq<string>)
    returns (vs: seq<Violation>)
    requires forall x :: x in reached <==> FromRoots(g, roots, x)
    ensures forall n :: n in staged && FromRoots(g, roots, n) ==> StagedReported(vs, n)
    ensures forall v :: v in vs ==>
      v.StagedReachable? && v.name in staged && FromRoots(g, roots, v.name) && ShortestRoute(g, roots, v.name, v.path)
  {
    vs := [];
    for i := 0 to |staged|
      invariant forall n :: n in staged[..i] && FromRoots(g, roots, n) ==> StagedReported(vs, n)
      invariant forall v :: v in vs ==>
        v.StagedReachable? && v.name in staged && FromRoots(g, roots, v.name) && ShortestRoute(g, roots, v.name, v.path)
    {
      var n := staged[i];
      assert staged[..i + 1] == staged[..i] + [n];
      if n in reached {
        var path := ShortestPath(g, roots, n);
        ghost var before := vs;
        vs := vs + [StagedReachable(n, path)];
        assert StagedReachable(n, path) in vs;
        forall m | StagedReported(before, m) ensures StagedReported(vs, m) {
          var q :| StagedReachable(m, q) in before;
          assert StagedReachable(m, q) in vs;
        }
      }
    }
    assert staged[..|staged|] == staged;
  }

  // A required name that is not defined, or is defined more than once.
  ghost predicate NotOnce(bodies: seq<Body>, required: seq<string>, why: Refusal) {
    match why
    case RequiredAbsent(name) => name in required && Files(bodies, name) == []
    case RequiredAmbiguous(name) => name in required && |Files(bodies, name)| > 1
    case _ => false
  }

  method RequiredViolations(g: map<string, set<string>>, roots: seq<string>, reached: set<string>, bodies: seq<Body>,
                            required: seq<string>)
    returns (r: Verdict)
    requires forall x :: x in reached <==> FromRoots(g, roots, x)
    ensures r.Judged? <==> forall n :: n in required ==> |Files(bodies, n)| == 1
    ensures r.Refused? ==> NotOnce(bodies, required, r.why)
    ensures r.Judged? ==> forall n :: n in required && !FromRoots(g, roots, n) ==>
      RequiredUnreachable(n) in r.violations
    ensures r.Judged? ==> forall v :: v in r.violations ==>
      v.RequiredUnreachable? && v.name in required && !FromRoots(g, roots, v.name)
  {
    var vs := [];
    for i := 0 to |required|
      invariant AllOnce(bodies, required[..i])
      invariant forall n :: n in required[..i] && !FromRoots(g, roots, n) ==> RequiredUnreachable(n) in vs
      invariant forall v :: v in vs ==> v.RequiredUnreachable? && v.name in required && !FromRoots(g, roots, v.name)
    {
      var n := required[i];
      assert required[..i + 1] == required[..i] + [n] && n in required;
      if Files(bodies, n) == [] { return Refused(RequiredAbsent(n)); }
      if |Files(bodies, n)| != 1 { return Refused(RequiredAmbiguous(n)); }
      if n !in reached { vs := vs + [RequiredUnreachable(n)]; }
    }
    assert required[..|required|] == required;
    r := Judged(vs, []);
  }

  ghost predicate ForbiddenReal(g: map<string, set<string>>, roots: seq<string>, defined: set<string>,
                                forbidden: seq<string>, v: Violation)
  {
    match v
    case ForbiddenDefined(n) => n in forbidden && n in defined
    case ForbiddenReachable(n) => n in forbidden && FromRoots(g, roots, n)
    case _ => false
  }

  ghost predicate ForbiddenReported(g: map<string, set<string>>, roots: seq<string>, defined: set<string>,
                                    vs: seq<Violation>, n: string)
  {
    && (n in defined ==> ForbiddenDefined(n) in vs)
    && (FromRoots(g, roots, n) ==> ForbiddenReachable(n) in vs)
  }

  method ForbiddenViolations(g: map<string, set<string>>, roots: seq<string>, reached: set<string>,
                             defined: set<string>, forbidden: seq<string>)
    returns (vs: seq<Violation>)
    requires forall x :: x in reached <==> FromRoots(g, roots, x)
    ensures forall n :: n in forbidden ==> ForbiddenReported(g, roots, defined, vs, n)
    ensures forall v :: v in vs ==> ForbiddenReal(g, roots, defined, forbidden, v)
  {
    vs := [];
    for i := 0 to |forbidden|
      invariant forall n :: n in forbidden[..i] ==> ForbiddenReported(g, roots, defined, vs, n)
      invariant forall v :: v in vs ==> ForbiddenReal(g, roots, defined, forbidden, v)
    {
      var n := forbidden[i];
      assert forbidden[..i + 1] == forbidden[..i] + [n] && n in forbidden;
      if n in defined { vs := vs + [ForbiddenDefined(n)]; }
      if n in reached { vs := vs + [ForbiddenReachable(n)]; }
    }
    assert forbidden[..|forbidden|] == forbidden;
  }

  method EdgeViolations(g: map<string, set<string>>, pairs: seq<(string, string)>) returns (vs: seq<Violation>)
    ensures forall e :: e in pairs && e.1 in Succ(g, e.0) ==> ForbiddenEdge(e.0, e.1) in vs
    ensures forall v :: v in vs ==> v.ForbiddenEdge? && (v.caller, v.callee) in pairs && v.callee in Succ(g, v.caller)
  {
    vs := [];
    for i := 0 to |pairs|
      invariant forall e :: e in pairs[..i] && e.1 in Succ(g, e.0) ==> ForbiddenEdge(e.0, e.1) in vs
      invariant forall v :: v in vs ==>
        v.ForbiddenEdge? && (v.caller, v.callee) in pairs && v.callee in Succ(g, v.caller)
    {
      var e := pairs[i];
      assert pairs[..i + 1] == pairs[..i] + [e] && e in pairs;
      if e.1 in Succ(g, e.0) { vs := vs + [ForbiddenEdge(e.0, e.1)]; }
    }
    assert pairs[..|pairs|] == pairs;
  }

  // A reported violation names a row of the gate and the fact that breaks it.
  ghost predicate Real(gate: Gate, bodies: seq<Body>, v: Violation) {
    var g := Merged(bodies);
    match v
    case StagedReachable(n, path) =>
      n in gate.staged && FromRoots(g, gate.roots, n) && ShortestRoute(g, gate.roots, n, path)
    case RequiredUnreachable(n) => n in gate.required && !FromRoots(g, gate.roots, n)
    case ForbiddenDefined(n) => n in gate.forbidden && n in DefinedNames(bodies)
    case ForbiddenReachable(n) => n in gate.forbidden && FromRoots(g, gate.roots, n)
    case ForbiddenEdge(a, b) => (a, b) in gate.forbiddenEdges && b in Succ(g, a)
  }

  // Every row that fails has its violation.
  ghost predicate Complete(gate: Gate, bodies: seq<Body>, vs: seq<Violation>) {
    var g := Merged(bodies);
    && (forall n :: n in gate.staged && FromRoots(g, gate.roots, n) ==> StagedReported(vs, n))
    && (forall n :: n in gate.required && !FromRoots(g, gate.roots, n) ==> RequiredUnreachable(n) in vs)
    && (forall n :: n in gate.forbidden ==> ForbiddenReported(g, gate.roots, DefinedNames(bodies), vs, n))
    && (forall e :: e in gate.forbiddenEdges && e.1 in Succ(g, e.0) ==> ForbiddenEdge(e.0, e.1) in vs)
  }

  lemma ReportedStays(a: seq<Violation>, vs: seq<Violation>, b: seq<Violation>, n: string)
    requires StagedReported(vs, n)
    ensures StagedReported(a + vs + b, n)
  {
    var path :| StagedReachable(n, path) in vs;
    assert StagedReachable(n, path) in a + vs + b;
  }

  // No violation, exactly when every row holds.
  lemma NoViolationIffHolds(gate: Gate, bodies: seq<Body>, vs: seq<Violation>)
    requires Complete(gate, bodies, vs) && forall v :: v in vs ==> Real(gate, bodies, v)
    ensures vs == [] <==> Holds(gate, bodies)
  {
    if vs != [] { assert Real(gate, bodies, vs[0]); }
  }

  // The roster refusals of `evaluate_gate`, in its order.
  function RosterRefusal(advertised: set<string>, gate: Gate, bodies: seq<Body>): (r: Option<Refusal>)
    ensures r.None? <==> gate.roots != [] && Elems(gate.roots) == advertised
                         && AllOnce(bodies, gate.roots) && AllOnce(bodies, gate.staged)
                         && AmbiguousTrue(gate, bodies) && ViaCallerTrue(gate, bodies)
  {
    if gate.roots == [] then Some(NoRoots)
    else if advertised - Elems(gate.roots) != {} then Some(OmitsDeclaredRoots)
    else if Elems(gate.roots) - advertised != {} then Some(UndeclaredRoots)
    else if exists n :: n in gate.roots && Files(bodies, n) == [] then Some(RootAbsent)
    else if !AllOnce(bodies, gate.roots) then Some(RootAmbiguous)
    else if exists n :: n in gate.staged && Files(bodies, n) == [] then Some(StagedAbsent)
    else if !AllOnce(bodies, gate.staged) then Some(StagedAmbiguous)
    else if !AmbiguousTrue(gate, bodies) then Some(AmbiguousStale)
    else if !ViaCallerTrue(gate, bodies) then Some(ViaCallerStale)
    else None
  }

  // Rosters are refused exactly for the first thing wrong with them.
  lemma RosterRefusals(advertised: set<string>, gate: Gate, bodies: seq<Body>)
    ensures var r := RosterRefusal(advertised, gate, bodies);
            var same := gate.roots != [] && Elems(gate.roots) == advertised;
            var found := same && forall n :: n in gate.roots ==> Files(bodies, n) != [];
            var once := same && forall n :: n in gate.roots ==> |Files(bodies, n)| == 1;
            var staged := once && forall n :: n in gate.staged ==> Files(bodies, n) != [];
            var unique := once && forall n :: n in gate.staged ==> |Files(bodies, n)| == 1;
            && (r == Some(NoRoots) <==> gate.roots == [])
            && (r == Some(OmitsDeclaredRoots) <==> gate.roots != [] && !(advertised <= Elems(gate.roots)))
            && (r == Some(UndeclaredRoots) <==> gate.roots != [] && advertised < Elems(gate.roots))
            && (r == Some(RootAbsent) <==> same && !found)
            && (r == Some(RootAmbiguous) <==> found && !once)
            && (r == Some(StagedAbsent) <==> once && !staged)
            && (r == Some(StagedAmbiguous) <==> staged && !unique)
            && (r == Some(AmbiguousStale) <==> unique && !CountsHold(gate, bodies))
            && (r == Some(ViaCallerStale) <==> unique && CountsHold(gate, bodies) && !CallersHold(gate, bodies))
            && (r == None <==> unique && CountsHold(gate, bodies) && CallersHold(gate, bodies))
  {
    NothingLeft(advertised, Elems(gate.roots));
    NothingLeft(Elems(gate.roots), advertised);
  }

  lemma AllReported(gate: Gate, bodies: seq<Body>, staged: seq<Violation>, required: seq<Violation>,
                    forbidden: seq<Violation>, pairs: seq<Violation>)
    requires forall n :: n in gate.staged && FromRoots(Merged(bodies), gate.roots, n) ==> StagedReported(staged, n)
    requires forall n :: n in gate.required && !FromRoots(Merged(bodies), gate.roots, n) ==>
      RequiredUnreachable(n) in required
    requires forall n :: n in gate.forbidden ==>
      ForbiddenReported(Merged(bodies), gate.roots, DefinedNames(bodies), forbidden, n)
    requires forall e :: e in gate.forbiddenEdges && e.1 in Succ(Merged(bodies), e.0) ==>
      ForbiddenEdge(e.0, e.1) in pairs
    ensures Complete(gate, bodies, staged + required + forbidden + pairs)
  {
    var vs := staged + required + forbidden + pairs;
    forall n | StagedReported(staged, n) ensures StagedReported(vs, n) {
      assert vs == [] + staged + (required + forbidden + pairs);
      ReportedStays([], staged, required + forbidden + pairs, n);
    }
  }

  lemma AllReal(gate: Gate, bodies: seq<Body>, staged: seq<Violation>, required: seq<Violation>,
                forbidden: seq<Violation>, pairs: seq<Violation>)
    requires forall v :: v in staged ==>
      v.StagedReachable? && v.name in gate.staged && FromRoots(Merged(bodies), gate.roots, v.name)
        && ShortestRoute(Merged(bodies), gate.roots, v.name, v.path)
    requires forall v :: v in required ==>
      v.RequiredUnreachable? && v.name in gate.required && !FromRoots(Merged(bodies), gate.roots, v.name)
    requires forall v :: v in forbidden ==>
      ForbiddenReal(Merged(bodies), gate.roots, DefinedNames(bodies), gate.forbidden, v)
    requires forall v :: v in pairs ==>
      v.ForbiddenEdge? && (v.caller, v.callee) in gate.forbiddenEdges && v.callee in Succ(Merged(bodies), v.caller)
    ensures forall v :: v in staged + required + forbidden + pairs ==> Real(gate, bodies, v)
  {
  }

  // `evaluate_gate`: it passes exactly when its rosters are admissible and every row holds.
  method EvaluateGate(advertised: set<string>, gate: Gate, bodies: seq<Body>, rows: Rows, inputs: Inputs)
    returns (r: Verdict)
    ensures r == Judged([], [])
      <==> Admissible(advertised, gate, bodies) && Holds(gate, bodies) && RowsHold(rows, inputs)
    ensures r.Judged? <==> Admissible(advertised, gate, bodies)
    ensures r.Judged? ==>
      Complete(gate, bodies, r.violations) && forall v :: v in r.violations ==> Real(gate, bodies, v)
    ensures r.Judged? ==> RowsComplete(rows, inputs, r.rows) && RowsReal(rows, inputs, r.rows)
  {
    var refusal := RosterRefusal(advertised, gate, bodies);
    RosterRefusals(advertised, gate, bodies);
    if refusal.Some? {
      return Refused(refusal.value);
    }
    var edges, definitions := BuildGraph(bodies);
    var reached, walked := ReachableFrom(edges, gate.roots);
    var staged := StagedViolations(edges, gate.roots, reached, gate.staged);
    r := RequiredViolations(edges, gate.roots, reached, bodies, gate.required);
    if r.Refused? { return; }
    var required := r.violations;
    var forbidden := ForbiddenViolations(edges, gate.roots, reached, definitions.Keys, gate.forbidden);
    var pairs := EdgeViolations(edges, gate.forbiddenEdges);
    var others := RowViolations(rows, inputs);
    r := Judged(staged + required + forbidden + pairs, others);
    assert definitions.Keys == DefinedNames(bodies);
    AllReported(gate, bodies, staged, required, forbidden, pairs);
    AllReal(gate, bodies, staged, required, forbidden, pairs);
    NoViolationIffHolds(gate, bodies, r.violations);
  }

  // A passing gate means that no definition of a staged name can be reached, by calls
  // through any definitions, from the definition of a production root.
  lemma PassingGateIsSound(gate: Gate, bodies: seq<Body>, calls: map<nat, set<nat>>, p: seq<nat>)
    requires Holds(gate, bodies) && Finer(bodies, calls)
    requires IsPath<nat>(calls, p) && p[0] < |bodies| && bodies[p[0]].name in gate.roots
    ensures p[|p| - 1] < |bodies| && bodies[p[|p| - 1]].name !in gate.staged
  {
    MergingHidesNoRoute(bodies, calls, p);
  }
}
