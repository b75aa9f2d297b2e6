/** The canonical form of a test run: per binary its test lines sorted by name, then
    one result record; elapsed times and thread order are gone. */
module TestRecords {
  import opened Outcomes
  import opened Sorting

  datatype Record = Record(name: string, status: string, count: nat)

  // One line of test-runner output, already matched against the closed grammar.
  datatype Line =
    | Empty
    | Running(tests: nat)
    | Test(name: string, status: string)
    | Finished(status: string, passed: nat, elapsed: string)
    | Unparsed(text: string)

  datatype Error = NestedSection | TestOutside | ResultOutside | BadLine(text: string) | Unterminated

  datatype Section = Section(tests: seq<Record>, status: string, passed: nat)

  const RESULT := "<result>"

  function NameOf(r: Record): string {
    r.name
  }

  // ----- Reading the sections -----

  // `open` holds the tests of the section being read, if one is open.
  function Sections(lines: seq<Line>, open: Option<seq<Record>>): Result<seq<Section>, Error>
    decreases |lines|
  {
    if lines == [] then if open.Some? then Err(Unterminated) else Ok([])
    else
      match lines[0]
      case Empty => Sections(lines[1..], open)
      case Running(_) => if open.Some? then Err(NestedSection) else Sections(lines[1..], Some([]))
      case Test(name, status) =>
        if open.None? then Err(TestOutside) else Sections(lines[1..], Some(open.value + [Record(name, status, 1)]))
      case Finished(status, passed, _) =>
        if open.None? then Err(ResultOutside)
        else (match Sections(lines[1..], None)
              case Ok(rest) => Ok([Section(open.value, status, passed)] + rest)
              case Err(e) => Err(e))
      case Unparsed(text) => Err(BadLine(text))
  }

  function SectionRecords(s: Section): seq<Record> {
    SortBy(NameOf, s.tests) + [Record(RESULT, s.status, s.passed)]
  }

  function Canonical(ss: seq<Section>): seq<Record> {
    if ss == [] then [] else SectionRecords(ss[0]) + Canonical(ss[1..])
  }

  function TotalPassed(ss: seq<Section>): nat {
    if ss == [] then 0 else ss[0].passed + TotalPassed(ss[1..])
  }

  // What the whole output comes to: the form and the number of passed tests, or the first error.
  function Outcome(lines: seq<Line>): Result<(seq<Record>, nat), Error> {
    match Sections(lines, None)
    case Ok(ss) => Ok((Canonical(ss), TotalPassed(ss)))
    case Err(e) => Err(e)
  }

  // The sections read so far in front of what the remaining lines hold.
  function After(done: seq<Section>, rest: Result<seq<Section>, Error>): Result<seq<Section>, Error> {
    if rest.Ok? then Ok(done + rest.value) else rest
  }

  lemma {:induction false} CanonicalAppend(ss: seq<Section>, s: Section)
    ensures Canonical(ss + [s]) == Canonical(ss) + SectionRecords(s)
    ensures TotalPassed(ss + [s]) == TotalPassed(ss) + s.passed
  {
    if ss == [] {
      assert [s][1..] == [] && Canonical([s]) == SectionRecords(s) + Canonical([]);
    } else {
      assert (ss + [s])[1..] == ss[1..] + [s];
      CanonicalAppend(ss[1..], s);
    }
  }

  lemma AfterSection(done: seq<Section>, s: Section, rest: Result<seq<Section>, Error>)
    ensures After(done, match rest case Ok(more) => Ok([s] + more) case Err(e) => Err(e)) == After(done + [s], rest)
  {
    if rest.Ok? { assert done + ([s] + rest.value) == (done + [s]) + rest.value; }
  }

  // `canonical_test_records`.
  method CanonicalTestRecords(lines: seq<Line>) returns (r: Result<(seq<Record>, nat), Error>)
    ensures r == Outcome(lines)
  {
    var records, pending, total, open := [], [], 0, false;
    ghost var done: seq<Section> := [];
    ghost var goal := Sections(lines, None);
    assert lines[0..] == lines && After([], goal) == goal by {
      if goal.Ok? { assert [] + goal.value == goal.value; }
    }
    for i := 0 to |lines|
      invariant records == Canonical(done) && total == TotalPassed(done)
      invariant After(done, Sections(lines[i..], if open then Some(pending) else None)) == goal
    {
      assert lines[i..][0] == lines[i] && lines[i..][1..] == lines[i + 1..];
      match lines[i]
      case Empty =>
      case Running(_) =>
        if open { return Err(NestedSection); }
        open, pending := true, [];
      case Test(name, status) =>
        if !open { return Err(TestOutside); }
        pending := pending + [Record(name, status, 1)];
      case Finished(status, passed, _) =>
        if !open { return Err(ResultOutside); }
        ghost var s := Section(pending, status, passed);
        CanonicalAppend(done, s);
        AfterSection(done, s, Sections(lines[i + 1..], None));
        records := records + SortBy(NameOf, pending) + [Record(RESULT, status, passed)];
        total, open, pending := total + passed, false, [];
        done := done + [s];
      case Unparsed(text) =>
        return Err(BadLine(text));
    }
    if open { return Err(Unterminated); }
    assert done + [] == done;
    r := Ok((records, total));
  }

  // The form of one section: its tests by name, then the result with the number passed.
  lemma OneSection(s: Section)
    ensures exists tests :: multiset(tests) == multiset(s.tests) && SortedBy(NameOf, tests)
                            && Canonical([s]) == tests + [Record("<result>", s.status, s.passed)]
    ensures TotalPassed([s]) == s.passed
  {
    SortSorts(NameOf, s.tests);
    assert [s][1..] == [] && Canonical([s]) == SectionRecords(s) + Canonical([]);
    assert Canonical([s]) == SortBy(NameOf, s.tests) + [Record("<result>", s.status, s.passed)];
  }

  // Sections follow one another, and their passed tests add up.
  lemma {:induction false} SectionsAddUp(a: seq<Section>, b: seq<Section>)
    ensures Canonical(a + b) == Canonical(a) + Canonical(b) && TotalPassed(a + b) == TotalPassed(a) + TotalPassed(b)
    decreases |a|
  {
    if a == [] {
      assert a + b == b;
    } else {
      assert (a + b)[1..] == a[1..] + b;
      SectionsAddUp(a[1..], b);
    }
  }

  // ----- Blank lines -----

  function NonEmpty(lines: seq<Line>): seq<Line> {
    if lines == [] then [] else (if lines[0].Empty? then [] else [lines[0]]) + NonEmpty(lines[1..])
  }

  // Blank lines make no difference, wherever they stand.
  lemma {:induction false} EmptyIgnored(lines: seq<Line>, open: Option<seq<Record>>)
    ensures Sections(lines, open) == Sections(NonEmpty(lines), open)
    decreases |lines|
  {
    if lines != [] {
      var more := NonEmpty(lines[1..]);
      if lines[0].Empty? {
        assert NonEmpty(lines) == more;
        EmptyIgnored(lines[1..], open);
      } else {
        assert NonEmpty(lines) == [lines[0]] + more && NonEmpty(lines)[1..] == more;
        EmptyIgnored(lines[1..], NextOpen(lines[0], open));
      }
    }
  }

  // The tests of the open section behind this line.
  function NextOpen(line: Line, open: Option<seq<Record>>): Option<seq<Record>> {
    match line
    case Running(_) => Some([])
    case Test(name, status) => if open.Some? then Some(open.value + [Record(name, status, 1)]) else None
    case Finished(_, _, _) => None
    case _ => open
  }

  lemma OutcomeIgnoresEmpty(lines: seq<Line>)
    ensures Outcome(lines) == Outcome(NonEmpty(lines))
  {
    EmptyIgnored(lines, None);
  }

  // ----- What is refused, and why -----

  // Whether a section is open in front of the k-th line: the last line before it that opens or closes one opens it.
  predicate OpenAt(lines: seq<Line>, k: nat, start: bool)
    requires k <= |lines|
  {
    if k == 0 then start
    else match lines[k - 1]
      case Running(_) => true
      case Finished(_, _, _) => false
      case _ => OpenAt(lines, k - 1, start)
  }

  function Fault(line: Line, open: bool): Option<Error> {
    match line
    case Empty => None
    case Running(_) => if open then Some(NestedSection) else None
    case Test(_, _) => if open then None else Some(TestOutside)
    case Finished(_, _, _) => if open then None else Some(ResultOutside)
    case Unparsed(text) => Some(BadLine(text))
  }

  ghost predicate Clean(lines: seq<Line>, n: nat, start: bool)
    requires n <= |lines|
  {
    forall k :: 0 <= k < n ==> Fault(lines[k], OpenAt(lines, k, start)).None?
  }

  // The first line at fault is the k-th, with this error.
  ghost predicate FaultAt(lines: seq<Line>, start: bool, e: Error, k: nat) {
    k < |lines| && Clean(lines, k, start) && Fault(lines[k], OpenAt(lines, k, start)) == Some(e)
  }

  ghost predicate Faulty(lines: seq<Line>, start: bool, e: Error) {
    exists k :: FaultAt(lines, start, e, k)
  }

  ghost predicate EndsInside(lines: seq<Line>, start: bool) {
    Clean(lines, |lines|, start) && OpenAt(lines, |lines|, start)
  }

  // The first line at fault, or an end inside a section.
  ghost predicate Refused(lines: seq<Line>, start: bool, e: Error) {
    Faulty(lines, start, e) || (EndsInside(lines, start) && e == Unterminated)
  }

  lemma {:induction false} OpenBehind(lines: seq<Line>, k: nat, start: bool)
    requires lines != [] && k <= |lines| - 1
    ensures OpenAt(lines, k + 1, start) == OpenAt(lines[1..], k, OpenAt(lines, 1, start))
    decreases k
  {
    if k > 0 {
      OpenBehind(lines, k - 1, start);
      assert lines[1..][k - 1] == lines[k];
    }
  }

  lemma CleanBehind(lines: seq<Line>, n: nat, start: bool)
    requires lines != [] && n <= |lines| - 1 && Fault(lines[0], start).None?
    ensures Clean(lines, n + 1, start) <==> Clean(lines[1..], n, OpenAt(lines, 1, start))
  {
    forall k | 0 <= k < n
      ensures Fault(lines[1..][k], OpenAt(lines[1..], k, OpenAt(lines, 1, start)))
        == Fault(lines[k + 1], OpenAt(lines, k + 1, start))
    {
      OpenBehind(lines, k, start);
    }
    if Clean(lines[1..], n, OpenAt(lines, 1, start)) {
      forall k | 0 <= k < n + 1 ensures Fault(lines[k], OpenAt(lines, k, start)).None? {
        if k > 0 { assert Fault(lines[1..][k - 1], OpenAt(lines[1..], k - 1, OpenAt(lines, 1, start))).None?; }
      }
    }
  }

  lemma FaultBehind(lines: seq<Line>, start: bool, e: Error, k: nat)
    requires lines != [] && Fault(lines[0], start).None? && k < |lines| - 1
    ensures FaultAt(lines, start, e, k + 1) <==> FaultAt(lines[1..], OpenAt(lines, 1, start), e, k)
  {
    OpenBehind(lines, k, start);
    CleanBehind(lines, k, start);
  }

  lemma FaultyBehind(lines: seq<Line>, start: bool, e: Error)
    requires lines != [] && Fault(lines[0], start).None?
    ensures Faulty(lines, start, e) <==> Faulty(lines[1..], OpenAt(lines, 1, start), e)
  {
    var more, next := lines[1..], OpenAt(lines, 1, start);
    assert !FaultAt(lines, start, e, 0);
    if k: nat :| FaultAt(lines, start, e, k) {
      FaultBehind(lines, start, e, k - 1);
      assert FaultAt(more, next, e, k - 1);
    }
    if k: nat :| FaultAt(more, next, e, k) {
      FaultBehind(lines, start, e, k);
      assert FaultAt(lines, start, e, k + 1);
    }
  }

  lemma RefusedBehind(lines: seq<Line>, start: bool, e: Error)
    requires lines != [] && Fault(lines[0], start).None?
    ensures Refused(lines, start, e) <==> Refused(lines[1..], OpenAt(lines, 1, start), e)
  {
    FaultyBehind(lines, start, e);
    OpenBehind(lines, |lines| - 1, start);
    CleanBehind(lines, |lines| - 1, start);
    assert EndsInside(lines, start) <==> EndsInside(lines[1..], OpenAt(lines, 1, start));
  }

  // Output is refused exactly for its first fault.
  lemma {:induction false} RefusedIff(lines: seq<Line>, open: Option<seq<Record>>, e: Error)
    ensures Sections(lines, open) == Err(e) <==> Refused(lines, open.Some?, e)
    decreases |lines|
  {
    if lines == [] {
      assert Clean(lines, 0, open.Some?);
    } else if Fault(lines[0], open.Some?).Some? {
      FaultFirst(lines, open.Some?, e);
    } else {
      RefusedBehind(lines, open.Some?, e);
      assert OpenAt(lines, 1, open.Some?) == NextOpen(lines[0], open).Some? by {
        assert OpenAt(lines, 0, open.Some?) == open.Some?;
      }
      RefusedIff(lines[1..], NextOpen(lines[0], open), e);
    }
  }

  lemma FaultFirst(lines: seq<Line>, start: bool, e: Error)
    requires lines != [] && Fault(lines[0], start).Some?
    ensures Refused(lines, start, e) <==> Fault(lines[0], start) == Some(e)
  {
    assert OpenAt(lines, 0, start) == start && Clean(lines, 0, start);
    forall k | 0 < k <= |lines| ensures !Clean(lines, k, start) {
      assert Fault(lines[0], OpenAt(lines, 0, start)).Some?;
    }
    if Fault(lines[0], start) == Some(e) { assert FaultAt(lines, start, e, 0); }
  }

  // ----- What the canonical form keeps and forgets -----

  // One binary's output as printed: the announced count, the tests in thread order, the result.
  datatype Run = Run(announced: nat, section: Section, elapsed: string)

  function TestLines(tests: seq<Record>): seq<Line> {
    if tests == [] then [] else [Test(tests[0].name, tests[0].status)] + TestLines(tests[1..])
  }

  function RunLines(run: Run): seq<Line> {
    [Running(run.announced)] + (TestLines(run.section.tests)
                                + [Finished(run.section.status, run.section.passed, run.elapsed)])
  }

  function Printed(runs: seq<Run>): seq<Line> {
    if runs == [] then [] else RunLines(runs[0]) + Printed(runs[1..])
  }

  function SectionsOf(runs: seq<Run>): (ss: seq<Section>)
    ensures |ss| == |runs|
  {
    seq(|runs|, i requires 0 <= i < |runs| => runs[i].section)
  }

  ghost predicate Countable(run: Run) {
    forall t :: t in run.section.tests ==> t.count == 1
  }

  lemma {:induction false} ReadTests(tests: seq<Record>, done: seq<Record>, rest: seq<Line>)
    requires forall t :: t in tests ==> t.count == 1
    ensures Sections(TestLines(tests) + rest, Some(done)) == Sections(rest, Some(done + tests))
    decreases |tests|
  {
    if tests == [] {
      assert TestLines(tests) + rest == rest && done + tests == done;
    } else {
      var lines := TestLines(tests) + rest;
      assert lines[0] == Test(tests[0].name, tests[0].status) && lines[1..] == TestLines(tests[1..]) + rest;
      assert tests[0] in tests && tests[0] == Record(tests[0].name, tests[0].status, 1);
      ReadTests(tests[1..], done + [tests[0]], rest);
      assert (done + [tests[0]]) + tests[1..] == done + tests;
    }
  }

  // Reading undoes printing; counts and elapsed times leave no trace.
  lemma {:induction false} ReadPrinted(runs: seq<Run>)
    requires forall run :: run in runs ==> Countable(run)
    ensures Sections(Printed(runs), None) == Ok(SectionsOf(runs))
    decreases |runs|
  {
    if runs != [] {
      var run, more := runs[0], Printed(runs[1..]);
      assert run in runs;
      var s := run.section;
      var last := Finished(s.status, s.passed, run.elapsed);
      var tail := [last] + more;
      assert Printed(runs) == [Running(run.announced)] + (TestLines(s.tests) + tail);
      assert Printed(runs)[1..] == TestLines(s.tests) + tail;
      ReadTests(s.tests, [], tail);
      assert [] + s.tests == s.tests && tail[1..] == more;
      ReadPrinted(runs[1..]);
      assert SectionsOf(runs) == [s] + SectionsOf(runs[1..]);
    }
  }

  // Output as it is printed, with blank lines anywhere.
  ghost predicate Prints(lines: seq<Line>, runs: seq<Run>) {
    NonEmpty(lines) == Printed(runs)
  }

  lemma ReadOutput(lines: seq<Line>, runs: seq<Run>)
    requires Prints(lines, runs) && forall run :: run in runs ==> Countable(run)
    ensures Sections(lines, None) == Ok(SectionsOf(runs))
  {
    EmptyIgnored(lines, None);
    ReadPrinted(runs);
  }

  // The same tests and results, in any thread order and with any times.
  ghost predicate SameRun(a: Run, b: Run) {
    && multiset(a.section.tests) == multiset(b.section.tests) && Consistent(NameOf, a.section.tests)
    && a.section.status == b.section.status && a.section.passed == b.section.passed
  }

  lemma {:induction false} SameRunsSameForm(a: seq<Run>, b: seq<Run>)
    requires |a| == |b| && forall i :: 0 <= i < |a| ==> SameRun(a[i], b[i])
    ensures Canonical(SectionsOf(a)) == Canonical(SectionsOf(b))
      && TotalPassed(SectionsOf(a)) == TotalPassed(SectionsOf(b))
    decreases |a|
  {
    if a != [] {
      assert SameRun(a[0], b[0]);
      OrderIrrelevantIffConsistent(NameOf, a[0].section.tests);
      assert SortBy(NameOf, b[0].section.tests) == SortBy(NameOf, a[0].section.tests);
      SameRunsSameForm(a[1..], b[1..]);
      FirstSection(a);
      FirstSection(b);
    }
  }

  // Two outputs of the same runs, however interleaved, timed and spaced, come to the same.
  lemma SameRunsSameOutcome(x: seq<Line>, a: seq<Run>, y: seq<Line>, b: seq<Run>)
    requires Prints(x, a) && Prints(y, b) && (forall run :: run in a || run in b ==> Countable(run))
    requires |a| == |b| && forall i :: 0 <= i < |a| ==> SameRun(a[i], b[i])
    ensures Outcome(x) == Outcome(y) && Outcome(x).Ok?
  {
    ReadOutput(x, a);
    ReadOutput(y, b);
    SameRunsSameForm(a, b);
  }

  lemma FirstSection(runs: seq<Run>)
    requires runs != []
    ensures Canonical(SectionsOf(runs)) == SectionRecords(runs[0].section) + Canonical(SectionsOf(runs[1..]))
    ensures TotalPassed(SectionsOf(runs)) == runs[0].section.passed + TotalPassed(SectionsOf(runs[1..]))
  {
    assert SectionsOf(runs)[1..] == SectionsOf(runs[1..]);
  }

  ghost predicate TestsNamed(ss: seq<Section>, allowed: iset<string>) {
    forall s, t :: s in ss && t in s.tests ==> t.name in allowed
  }

  // Same sections in the same order: verdicts by name, result status and passed count.
  ghost predicate SameReport(a: seq<Section>, b: seq<Section>) {
    |a| == |b| && forall i :: 0 <= i < |a| ==>
      multiset(a[i].tests) == multiset(b[i].tests) && a[i].status == b[i].status && a[i].passed == b[i].passed
  }

  lemma FirstResult(x: seq<Record>, r: Record, p: seq<Record>)
    requires (forall t :: t in x ==> t.name != RESULT) && r.name == RESULT
    ensures var s := x + ([r] + p); s[|x|] == r && forall i :: 0 <= i < |x| ==> s[i].name != RESULT
  {
    var s := x + ([r] + p);
    forall i | 0 <= i < |x| ensures s[i].name != RESULT { assert s[i] == x[i] && x[i] in x; }
  }

  // The first result record ends a section.
  lemma ResultApart(x: seq<Record>, r: Record, p: seq<Record>, y: seq<Record>, q: Record, z: seq<Record>)
    requires (forall t :: t in x ==> t.name != RESULT) && (forall t :: t in y ==> t.name != RESULT)
    requires r.name == RESULT && q.name == RESULT && x + ([r] + p) == y + ([q] + z)
    ensures x == y && r == q && p == z
  {
    var s, t := x + ([r] + p), y + ([q] + z);
    FirstResult(x, r, p);
    FirstResult(y, q, z);
    assert |x| == |y|;
    assert s[..|x|] == x && t[..|y|] == y;
    assert s[|x| + 1..] == p && t[|y| + 1..] == z;
  }

  lemma SortedNames(tests: seq<Record>)
    requires forall t :: t in tests ==> t.name != RESULT
    ensures forall t :: t in SortBy(NameOf, tests) ==> t.name != RESULT
  {
    SortSorts(NameOf, tests);
    forall t | t in SortBy(NameOf, tests) ensures t.name != RESULT { assert t in multiset(tests); }
  }

  lemma {:induction false} CanonicalUnique(a: seq<Section>, b: seq<Section>, allowed: iset<string>)
    requires RESULT !in allowed && TestsNamed(a, allowed) && TestsNamed(b, allowed) && Canonical(a) == Canonical(b)
    ensures SameReport(a, b)
    decreases |a|
  {
    if a != [] && b != [] {
      var s, t := a[0], b[0];
      var r, q := Record(RESULT, s.status, s.passed), Record(RESULT, t.status, t.passed);
      CanonicalFirst(a, allowed);
      CanonicalFirst(b, allowed);
      ResultApart(SortBy(NameOf, s.tests), r, Canonical(a[1..]), SortBy(NameOf, t.tests), q, Canonical(b[1..]));
      SortSorts(NameOf, s.tests);
      SortSorts(NameOf, t.tests);
      CanonicalUnique(a[1..], b[1..], allowed);
      SameReportFirst(a, b);
    }
  }

  // The first section of the form: its verdicts, none of them the result record, then its result.
  lemma CanonicalFirst(ss: seq<Section>, allowed: iset<string>)
    requires ss != [] && RESULT !in allowed && TestsNamed(ss, allowed)
    ensures var s := ss[0];
            Canonical(ss) == SortBy(NameOf, s.tests) + ([Record(RESULT, s.status, s.passed)] + Canonical(ss[1..]))
    ensures forall t :: t in SortBy(NameOf, ss[0].tests) ==> t.name != RESULT
    ensures TestsNamed(ss[1..], allowed)
  {
    assert ss[0] in ss;
    SortedNames(ss[0].tests);
    forall x | x in ss[1..] ensures x in ss {}
  }

  lemma SameReportFirst(a: seq<Section>, b: seq<Section>)
    requires a != [] && b != [] && SameReport(a[1..], b[1..])
    requires multiset(a[0].tests) == multiset(b[0].tests) && a[0].status == b[0].status && a[0].passed == b[0].passed
    ensures SameReport(a, b)
  {
    forall i | 0 <= i < |a|
      ensures multiset(a[i].tests) == multiset(b[i].tests) && a[i].status == b[i].status && a[i].passed == b[i].passed
    {
      if i > 0 { assert a[i] == a[1..][i - 1] && b[i] == b[1..][i - 1]; }
    }
  }

  ghost predicate FormIsFaithful(allowed: iset<string>) {
    forall a, b :: TestsNamed(a, allowed) && TestsNamed(b, allowed) && Canonical(a) == Canonical(b) ==> SameReport(a, b)
  }

  // A test named like the result record can be taken for one.
  lemma ResultNameCollides() returns (a: seq<Section>, b: seq<Section>)
    ensures TestsNamed(a, iset{RESULT}) && TestsNamed(b, iset{RESULT}) && Canonical(a) == Canonical(b)
    ensures a == [Section([Record(RESULT, "ok", 1)], "ok", 1)] && b == [Section([], "ok", 1), Section([], "ok", 1)]
    ensures Canonical(a) == [Record(RESULT, "ok", 1), Record(RESULT, "ok", 1)] && TotalPassed(a) == 1
      && TotalPassed(b) == 2
  {
    var r := Record(RESULT, "ok", 1);
    var one, none := Section([r], "ok", 1), Section([], "ok", 1);
    a, b := [one], [none, none];
    assert [r][1..] == [] && SortBy(NameOf, [r]) == InsertBy(NameOf, r, SortBy(NameOf, [])) == [r];
    assert a[1..] == [] && b[1..] == [none] && [none][1..] == [];
    assert SectionRecords(one) == [r, r] && SectionRecords(none) == [] + [r] == [r];
    assert Canonical([none]) == [r] + Canonical([]) == [r];
  }

  // As output: one run of a test with that name, and two runs without tests, leave the same records but not the
  // same number of passed tests.
  lemma ResultNameCollidesInOutput()
    ensures var r := Record(RESULT, "ok", 1);
            && Outcome([Running(1), Test(RESULT, "ok"), Finished("ok", 1, "0.00s")]) == Ok(([r, r], 1))
            && Outcome([Running(0), Finished("ok", 1, "0.00s"), Running(0), Finished("ok", 1, "0.00s")])
               == Ok(([r, r], 2))
  {
    var r := Record(RESULT, "ok", 1);
    var one, none := Run(1, Section([r], "ok", 1), "0.00s"), Run(0, Section([], "ok", 1), "0.00s");
    ReadPrinted([one]);
    ReadPrinted([none, none]);
    OneRunLines(r, one);
    TwoRunLines(none);
    var a, b := ResultNameCollides();
    assert SectionsOf([one]) == a && SectionsOf([none, none]) == b;
  }

  lemma OneRunLines(r: Record, one: Run)
    requires r == Record(RESULT, "ok", 1) && one == Run(1, Section([r], "ok", 1), "0.00s")
    ensures Printed([one]) == [Running(1), Test(RESULT, "ok"), Finished("ok", 1, "0.00s")]
  {
    assert [one][1..] == [] && [r][1..] == [];
    assert TestLines([r]) == [Test(RESULT, "ok")] + TestLines([]);
  }

  lemma TwoRunLines(none: Run)
    requires none == Run(0, Section([], "ok", 1), "0.00s")
    ensures Printed([none, none]) == [Running(0), Finished("ok", 1, "0.00s"), Running(0), Finished("ok", 1, "0.00s")]
  {
    assert [none, none][1..] == [none] && [none][1..] == [];
    assert RunLines(none) == [Running(0), Finished("ok", 1, "0.00s")];
    assert Printed([none]) == RunLines(none) + Printed([]);
  }

  // Equal canonical forms mean equal reports, exactly when no test may be named "<result>".
  lemma FaithfulIffNoResultName(allowed: iset<string>)
    ensures FormIsFaithful(allowed) <==> RESULT !in allowed
  {
    if RESULT in allowed {
      var a, b := ResultNameCollides();
      assert TestsNamed(a, allowed) && TestsNamed(b, allowed);
      if |a| == |b| { PassedByIndex(a, b); }
    } else {
      forall a, b | TestsNamed(a, allowed) && TestsNamed(b, allowed) && Canonical(a) == Canonical(b)
        ensures SameReport(a, b)
      {
        CanonicalUnique(a, b, allowed);
      }
    }
  }

  // Equal reports have equal totals.
  lemma {:induction false} PassedByIndex(a: seq<Section>, b: seq<Section>)
    requires |a| == |b|
    ensures SameReport(a, b) ==> TotalPassed(a) == TotalPassed(b)
    decreases |a|
  {
    if a != [] && SameReport(a, b) {
      forall i | 0 <= i < |a| - 1
        ensures multiset(a[1..][i].tests) == multiset(b[1..][i].tests) && a[1..][i].status == b[1..][i].status
          && a[1..][i].passed == b[1..][i].passed
      {
        assert a[1..][i] == a[i + 1] && b[1..][i] == b[i + 1];
      }
      PassedByIndex(a[1..], b[1..]);
    }
  }
}
