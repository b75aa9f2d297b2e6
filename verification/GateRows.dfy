/** The gate's rows about the source itself: text that must not occur, names that must have
    vanished, and exactly who may call what, how often. The production text and the index
    of direct calls are inputs. */
module GateRows {
  import opened Paths
  import opened Sequences

  datatype Source = Source(file: string, text: string)

  // A call expression, or a mention of a function that is not a call.
  datatype Call = Call(caller: string, callee: string)

  // The caller calls the callee exactly so often; if `sole`, nobody else calls it.
  datatype DirectRow = DirectRow(caller: string, callee: string, exact: nat, sole: bool)

  // Exactly these callers, each so often, and no mention that is not a call.
  datatype RosterRow = RosterRow(callee: string, callers: map<string, nat>)

  datatype Rows = Rows(direct: seq<DirectRow>, rosters: seq<RosterRow>, forbiddenText: seq<string>,
                       zeroRoster: seq<string>)

  datatype Inputs = Inputs(production: seq<Source>, manifests: seq<Source>, calls: seq<Call>, references: seq<Call>)

  datatype RowViolation =
    | WrongCount(row: DirectRow, observed: nat)
    | NotSole(row: DirectRow, total: nat)
    | RosterCount(callee: string, caller: string, expected: nat, observed: nat)
    | RosterUnexpected(callee: string, caller: string)
    | RosterReference(callee: string, caller: string)
    | TextPresent(needle: string, file: string)
    | ZeroRosterHit(entry: string, files: seq<string>)

  // ----- Counting calls -----

  function CallsTo(calls: seq<Call>, callee: string): nat {
    if calls == [] then 0 else (if calls[0].callee == callee then 1 else 0) + CallsTo(calls[1..], callee)
  }

  lemma {:induction false} CallsAtLeast(calls: seq<Call>, caller: string, callee: string)
    ensures multiset(calls)[Call(caller, callee)] <= CallsTo(calls, callee)
    ensures (forall c :: c in calls && c.callee == callee ==> c.caller == caller)
       <==> multiset(calls)[Call(caller, callee)] == CallsTo(calls, callee)
    decreases |calls|
  {
    if calls != [] {
      CallsAtLeast(calls[1..], caller, callee);
      assert calls == [calls[0]] + calls[1..];
      assert multiset(calls) == multiset{calls[0]} + multiset(calls[1..]);
      forall c ensures c in calls <==> c == calls[0] || c in calls[1..] {}
    }
  }

  // What a direct row asks of the program.
  ghost predicate DirectHolds(row: DirectRow, calls: seq<Call>) {
    && multiset(calls)[Call(row.caller, row.callee)] == row.exact
    && (row.sole ==> forall c :: c in calls && c.callee == row.callee ==> c.caller == row.caller)
  }

  lemma DirectIff(row: DirectRow, calls: seq<Call>)
    ensures var observed, total := multiset(calls)[Call(row.caller, row.callee)], CallsTo(calls, row.callee);
            DirectHolds(row, calls) <==> observed == row.exact && (row.sole ==> observed == total && total == row.exact)
  {
    CallsAtLeast(calls, row.caller, row.callee);
  }

  // The violation tells the truth about its row, and the row fails.
  ghost predicate DirectReal(calls: seq<Call>, v: RowViolation) {
    match v
    case WrongCount(row, observed) => observed == multiset(calls)[Call(row.caller, row.callee)] != row.exact
    case NotSole(row, total) => row.sole && total == CallsTo(calls, row.callee) && !DirectHolds(row, calls)
    case _ => false
  }

  ghost predicate DirectReported(vs: seq<RowViolation>, row: DirectRow) {
    exists v :: v in vs && (v.WrongCount? || v.NotSole?) && v.row == row
  }

  method DirectViolation(row: DirectRow, calls: seq<Call>) returns (vs: seq<RowViolation>)
    ensures vs == [] <==> DirectHolds(row, calls)
    ensures forall v :: v in vs ==> DirectReal(calls, v) && v.row == row
    ensures DirectHolds(row, calls) || DirectReported(vs, row)
  {
    var observed, total := multiset(calls)[Call(row.caller, row.callee)], CallsTo(calls, row.callee);
    DirectIff(row, calls);
    vs := if observed != row.exact then [WrongCount(row, observed)] else [];
    if row.sole && (observed != total || total != row.exact) { vs := vs + [NotSole(row, total)]; }
    if vs != [] { assert vs[0] in vs; }
  }

  // `evaluate_required_direct_edges`.
  method DirectViolations(rows: seq<DirectRow>, calls: seq<Call>) returns (vs: seq<RowViolation>)
    ensures vs == [] <==> forall row :: row in rows ==> DirectHolds(row, calls)
    ensures forall v :: v in vs ==> DirectReal(calls, v) && v.row in rows
    ensures forall row :: row in rows ==> DirectHolds(row, calls) || DirectReported(vs, row)
  {
    vs := [];
    for i := 0 to |rows|
      invariant vs == [] <==> forall row :: row in rows[..i] ==> DirectHolds(row, calls)
      invariant forall v :: v in vs ==> DirectReal(calls, v) && v.row in rows
      invariant forall row :: row in rows[..i] ==> DirectHolds(row, calls) || DirectReported(vs, row)
    {
      var found := DirectViolation(rows[i], calls);
      assert rows[..i + 1] == rows[..i] + [rows[i]];
      MoreReported(vs, found);
      vs := vs + found;
    }
    assert rows[..|rows|] == rows;
  }

  lemma MoreReported(vs: seq<RowViolation>, found: seq<RowViolation>)
    ensures forall row :: DirectReported(vs, row) || DirectReported(found, row) ==> DirectReported(vs + found, row)
  {
    forall row | DirectReported(vs, row) || DirectReported(found, row) ensures DirectReported(vs + found, row) {
      var v :| (v in vs || v in found) && (v.WrongCount? || v.NotSole?) && v.row == row;
      assert v in vs + found;
    }
  }

  // ----- Closed rosters of callers -----

  ghost predicate RosterHolds(row: RosterRow, calls: seq<Call>, references: seq<Call>) {
    && (forall caller :: multiset(calls)[Call(caller, row.callee)]
                         == if caller in row.callers then row.callers[caller] else 0)
    && (forall r :: r in references ==> r.callee != row.callee)
  }

  ghost predicate RosterReal(row: RosterRow, calls: seq<Call>, references: seq<Call>, v: RowViolation) {
    match v
    case RosterCount(callee, caller, expected, observed) =>
      && callee == row.callee && caller in row.callers && expected == row.callers[caller]
      && observed == multiset(calls)[Call(caller, callee)] != expected
    case RosterUnexpected(callee, caller) =>
      callee == row.callee && caller !in row.callers && Call(caller, callee) in calls
    case RosterReference(callee, caller) => callee == row.callee && Call(caller, callee) in references
    case _ => false
  }

  method CountViolations(row: RosterRow, calls: seq<Call>, references: seq<Call>, callers: seq<string>)
    returns (vs: seq<RowViolation>)
    requires Elems(callers) == row.callers.Keys
    ensures vs == [] <==> forall c :: c in row.callers ==> multiset(calls)[Call(c, row.callee)] == row.callers[c]
    ensures forall v :: v in vs ==> RosterReal(row, calls, references, v)
  {
    vs := [];
    for i := 0 to |callers|
      invariant vs == [] <==> forall c :: c in callers[..i] ==>
        c in row.callers && multiset(calls)[Call(c, row.callee)] == row.callers[c]
      invariant forall v :: v in vs ==> RosterReal(row, calls, references, v)
    {
      var caller := callers[i];
      assert callers[..i + 1] == callers[..i] + [caller] && caller in Elems(callers);
      var observed := multiset(calls)[Call(caller, row.callee)];
      if observed != row.callers[caller] {
        vs := vs + [RosterCount(row.callee, caller, row.callers[caller], observed)];
      }
    }
    assert callers[..|callers|] == callers;
    assert forall c :: c in callers <==> c in Elems(callers);
  }

  method UnexpectedViolations(row: RosterRow, calls: seq<Call>, references: seq<Call>) returns (vs: seq<RowViolation>)
    ensures vs == [] <==> forall c :: c in calls && c.callee == row.callee ==> c.caller in row.callers
    ensures forall v :: v in vs ==> RosterReal(row, calls, references, v)
  {
    vs := [];
    for i := 0 to |calls|
      invariant vs == [] <==> forall c :: c in calls[..i] && c.callee == row.callee ==> c.caller in row.callers
      invariant forall v :: v in vs ==> RosterReal(row, calls, references, v)
    {
      var c := calls[i];
      assert calls[..i + 1] == calls[..i] + [c];
      if c.callee == row.callee && c.caller !in row.callers {
        assert c == Call(c.caller, row.callee) && c in calls;
        vs := vs + [RosterUnexpected(row.callee, c.caller)];
      }
    }
    assert calls[..|calls|] == calls;
  }

  method ReferenceViolations(row: RosterRow, calls: seq<Call>, references: seq<Call>) returns (vs: seq<RowViolation>)
    ensures vs == [] <==> forall r :: r in references ==> r.callee != row.callee
    ensures forall v :: v in vs ==> RosterReal(row, calls, references, v)
  {
    vs := [];
    for i := 0 to |references|
      invariant vs == [] <==> forall r :: r in references[..i] ==> r.callee != row.callee
      invariant forall v :: v in vs ==> RosterReal(row, calls, references, v)
    {
      var r := references[i];
      assert references[..i + 1] == references[..i] + [r];
      if r.callee == row.callee {
        assert r == Call(r.caller, row.callee) && r in references;
        vs := vs + [RosterReference(row.callee, r.caller)];
      }
    }
    assert references[..|references|] == references;
  }

  lemma RosterIff(row: RosterRow, calls: seq<Call>, references: seq<Call>)
    ensures RosterHolds(row, calls, references)
       <==> && (forall c :: c in row.callers ==> multiset(calls)[Call(c, row.callee)] == row.callers[c])
            && (forall c :: c in calls && c.callee == row.callee ==> c.caller in row.callers)
            && (forall r :: r in references ==> r.callee != row.callee)
  {
    forall c ensures c in calls <==> multiset(calls)[c] > 0 { assert c in calls <==> c in multiset(calls); }
    forall c: Call | c.callee == row.callee ensures c == Call(c.caller, row.callee) {}
  }

  // One row of `evaluate_sole_direct_callers`: nothing to report exactly when the callers are the roster, call for
  // call.
  method RosterViolations(row: RosterRow, calls: seq<Call>, references: seq<Call>, callers: seq<string>)
    returns (vs: seq<RowViolation>)
    requires Elems(callers) == row.callers.Keys
    ensures vs == [] <==> RosterHolds(row, calls, references)
    ensures forall v :: v in vs ==> RosterReal(row, calls, references, v)
  {
    var counts := CountViolations(row, calls, references, callers);
    var unexpected := UnexpectedViolations(row, calls, references);
    var mentions := ReferenceViolations(row, calls, references);
    vs := counts + unexpected + mentions;
    RosterIff(row, calls, references);
  }

  // ----- Text -----

  ghost predicate Occurs(text: string, needle: string) {
    exists i :: 0 <= i <= |text| && needle <= text[i..]
  }

  // Python's `in` on strings.
  predicate Contains(text: string, needle: string) {
    needle <= text || (text != [] && Contains(text[1..], needle))
  }

  lemma {:induction false} ContainsIffOccurs(text: string, needle: string)
    ensures Contains(text, needle) <==> Occurs(text, needle)
    decreases |text|
  {
    assert text[0..] == text;
    if text != [] {
      ContainsIffOccurs(text[1..], needle);
      if Occurs(text[1..], needle) {
        var i :| 0 <= i <= |text[1..]| && needle <= text[1..][i..];
        DropDrop(text, 1, i);
      }
      if i :| 1 <= i <= |text| && needle <= text[i..] {
        DropDrop(text, 1, i - 1);
        assert needle <= text[1..][i - 1..];
      }
    }
  }

  // The files among the sources that contain the entry, in order.
  function Hits(sources: seq<Source>, entry: string): seq<string> {
    if sources == [] then []
    else (if Contains(sources[0].text, entry) then [sources[0].file] else []) + Hits(sources[1..], entry)
  }

  ghost predicate Absent(sources: seq<Source>, entry: string) {
    forall s :: s in sources ==> !Occurs(s.text, entry)
  }

  lemma {:induction false} NoHitsIffAbsent(sources: seq<Source>, entry: string)
    ensures Hits(sources, entry) == [] <==> Absent(sources, entry)
    decreases |sources|
  {
    if sources != [] {
      NoHitsIffAbsent(sources[1..], entry);
      ContainsIffOccurs(sources[0].text, entry);
      forall s ensures s in sources <==> s == sources[0] || s in sources[1..] {}
    }
  }

  ghost predicate TextReal(sources: seq<Source>, needle: string, file: string) {
    exists s :: s in sources && s.file == file && Occurs(s.text, needle)
  }

  // Which of the first `n` sources have the name.
  ghost function Having(sources: seq<Source>, entry: string, n: nat): set<nat>
    requires n <= |sources|
  {
    set j: nat | j < n && Occurs(sources[j].text, entry)
  }

  lemma HavingPrefix(sources: seq<Source>, entry: string, n: nat, k: nat)
    requires n <= k <= |sources|
    ensures Having(sources[..k], entry, n) == Having(sources, entry, n)
  {
  }

  lemma HavingOneMore(sources: seq<Source>, entry: string, n: nat)
    requires n < |sources|
    ensures |Having(sources, entry, n + 1)|
         == |Having(sources, entry, n)| + if Occurs(sources[n].text, entry) then 1 else 0
  {
    assert Having(sources, entry, n + 1)
        == if Occurs(sources[n].text, entry) then Having(sources, entry, n) + {n} else Having(sources, entry, n);
  }

  lemma {:induction false} HitsLast(sources: seq<Source>, entry: string)
    requires sources != []
    ensures var k := |sources| - 1;
            var last := if Occurs(sources[k].text, entry) then [sources[k].file] else [];
            Hits(sources, entry) == Hits(sources[..k], entry) + last
    decreases |sources|
  {
    var k := |sources| - 1;
    ContainsIffOccurs(sources[0].text, entry);
    if k > 0 {
      HitsLast(sources[1..], entry);
      assert sources[1..][..k - 1] == sources[..k][1..];
    } else {
      assert sources[1..] == [] && sources[..k] == [];
    }
  }

  // One file is listed for each source that has the name.
  lemma {:induction false} HitsCount(sources: seq<Source>, entry: string)
    ensures |Hits(sources, entry)| == |Having(sources, entry, |sources|)|
    decreases |sources|
  {
    if sources != [] {
      var k := |sources| - 1;
      HitsCount(sources[..k], entry);
      HitsLast(sources, entry);
      HavingPrefix(sources, entry, k, k);
      HavingOneMore(sources, entry, k);
    }
  }

  // It is the source's own, and they are listed in the order of the sources.
  lemma {:induction false} HitAt(sources: seq<Source>, entry: string, i: nat)
    requires i < |sources| && Occurs(sources[i].text, entry)
    ensures var k := |Having(sources, entry, i)|;
            k < |Hits(sources, entry)| && Hits(sources, entry)[k] == sources[i].file
    decreases |sources|
  {
    var last := |sources| - 1;
    HitsLast(sources, entry);
    HavingPrefix(sources, entry, i, last);
    if i < last {
      HitAt(sources[..last], entry, i);
    } else {
      HitsCount(sources[..last], entry);
    }
  }

  // The forbidden-text rows of `evaluate_gate`.
  method TextViolations(sources: seq<Source>, needles: seq<string>) returns (vs: seq<RowViolation>)
    ensures vs == [] <==> forall n :: n in needles ==> Absent(sources, n)
    ensures forall v :: v in vs ==> v.TextPresent? && v.needle in needles && TextReal(sources, v.needle, v.file)
    ensures forall n, s :: n in needles && s in sources && Occurs(s.text, n) ==> TextPresent(n, s.file) in vs
  {
    vs := [];
    for i := 0 to |sources|
      invariant vs == [] <==> forall n, s :: n in needles && s in sources[..i] ==> !Occurs(s.text, n)
      invariant forall v :: v in vs ==> v.TextPresent? && v.needle in needles && TextReal(sources, v.needle, v.file)
      invariant forall n, s :: n in needles && s in sources[..i] && Occurs(s.text, n) ==> TextPresent(n, s.file) in vs
    {
      var found := TextsIn(sources[i], needles);
      assert sources[..i + 1] == sources[..i] + [sources[i]] && sources[i] in sources;
      vs := vs + found;
    }
    assert sources[..|sources|] == sources;
  }

  method TextsIn(source: Source, needles: seq<string>) returns (vs: seq<RowViolation>)
    ensures vs == [] <==> forall n :: n in needles ==> !Occurs(source.text, n)
    ensures forall v :: v in vs ==>
      v.TextPresent? && v.needle in needles && v.file == source.file && Occurs(source.text, v.needle)
    ensures forall n :: n in needles && Occurs(source.text, n) ==> TextPresent(n, source.file) in vs
  {
    vs := [];
    for j := 0 to |needles|
      invariant vs == [] <==> forall n :: n in needles[..j] ==> !Occurs(source.text, n)
      invariant forall v :: v in vs ==>
        v.TextPresent? && v.needle in needles && v.file == source.file && Occurs(source.text, v.needle)
      invariant forall n :: n in needles[..j] && Occurs(source.text, n) ==> TextPresent(n, source.file) in vs
    {
      assert needles[..j + 1] == needles[..j] + [needles[j]];
      ContainsIffOccurs(source.text, needles[j]);
      if Contains(source.text, needles[j]) { vs := vs + [TextPresent(needles[j], source.file)]; }
    }
    assert needles[..|needles|] == needles;
  }

  // `evaluate_zero_roster`, over the production text and the named manifests together.
  method ZeroRosterViolations(corpus: seq<Source>, roster: seq<string>) returns (vs: seq<RowViolation>)
    ensures vs == [] <==> forall n :: n in roster ==> Absent(corpus, n)
    ensures forall v :: v in vs ==> v.ZeroRosterHit? && v.entry in roster && v.files == Hits(corpus, v.entry) != []
    ensures forall n :: n in roster ==> Absent(corpus, n) || ZeroRosterHit(n, Hits(corpus, n)) in vs
  {
    vs := [];
    for i := 0 to |roster|
      invariant vs == [] <==> forall n :: n in roster[..i] ==> Absent(corpus, n)
      invariant forall v :: v in vs ==> v.ZeroRosterHit? && v.entry in roster && v.files == Hits(corpus, v.entry) != []
      invariant forall n :: n in roster[..i] ==> Absent(corpus, n) || ZeroRosterHit(n, Hits(corpus, n)) in vs
    {
      assert roster[..i + 1] == roster[..i] + [roster[i]];
      NoHitsIffAbsent(corpus, roster[i]);
      var hits := Hits(corpus, roster[i]);
      if hits != [] { vs := vs + [ZeroRosterHit(roster[i], hits)]; }
    }
    assert roster[..|roster|] == roster;
  }

  // ----- All of them -----

  // What the retired names are searched in.
  function Corpus(inputs: Inputs): seq<Source> {
    inputs.production + inputs.manifests
  }

  ghost predicate RowsHold(rows: Rows, inputs: Inputs) {
    && (forall row :: row in rows.direct ==> DirectHolds(row, inputs.calls))
    && (forall row :: row in rows.rosters ==> RosterHolds(row, inputs.calls, inputs.references))
    && (forall n :: n in rows.forbiddenText ==> Absent(inputs.production, n))
    && (forall n :: n in rows.zeroRoster ==> Absent(inputs.production, n) && Absent(inputs.manifests, n))
  }

  ghost predicate RosterReported(row: RosterRow, calls: seq<Call>, references: seq<Call>, vs: seq<RowViolation>) {
    exists v :: v in vs && RosterReal(row, calls, references, v)
  }

  lemma MoreRostersReported(calls: seq<Call>, references: seq<Call>, vs: seq<RowViolation>, found: seq<RowViolation>)
    ensures forall row ::
      RosterReported(row, calls, references, vs) || RosterReported(row, calls, references, found) ==>
        RosterReported(row, calls, references, vs + found)
  {
    forall row | RosterReported(row, calls, references, vs) || RosterReported(row, calls, references, found)
      ensures RosterReported(row, calls, references, vs + found)
    {
      var v :| (v in vs || v in found) && RosterReal(row, calls, references, v);
      assert v in vs + found;
    }
  }

  method AllRosterViolations(rows: seq<RosterRow>, calls: seq<Call>, references: seq<Call>)
    returns (vs: seq<RowViolation>)
    ensures vs == [] <==> forall row :: row in rows ==> RosterHolds(row, calls, references)
    ensures forall v :: v in vs ==> exists row :: row in rows && RosterReal(row, calls, references, v)
    ensures forall row :: row in rows ==>
      RosterHolds(row, calls, references) || RosterReported(row, calls, references, vs)
  {
    vs := [];
    for i := 0 to |rows|
      invariant vs == [] <==> forall row :: row in rows[..i] ==> RosterHolds(row, calls, references)
      invariant forall v :: v in vs ==> exists row :: row in rows && RosterReal(row, calls, references, v)
      invariant forall row :: row in rows[..i] ==>
        RosterHolds(row, calls, references) || RosterReported(row, calls, references, vs)
    {
      var callers := Listed(rows[i].callers.Keys);
      var found := RosterViolations(rows[i], calls, references, callers);
      assert rows[..i + 1] == rows[..i] + [rows[i]] && rows[i] in rows;
      if found != [] { assert RosterReal(rows[i], calls, references, found[0]) && found[0] in found; }
      MoreRostersReported(calls, references, vs, found);
      vs := vs + found;
    }
    assert rows[..|rows|] == rows;
  }

  method Listed(names: set<string>) returns (list: seq<string>)
    ensures Elems(list) == names
  {
    list := [];
    var rest := names;
    while rest != {}
      invariant rest <= names && Elems(list) == names - rest
      decreases |rest|
    {
      var n :| n in rest;
      ElemsAppend(list, n);
      list, rest := list + [n], rest - {n};
    }
  }

  // The violation is about one of the rows, and what it says is so.
  ghost predicate RowReal(rows: Rows, inputs: Inputs, v: RowViolation) {
    match v
    case WrongCount(row, _) => row in rows.direct && DirectReal(inputs.calls, v)
    case NotSole(row, _) => row in rows.direct && DirectReal(inputs.calls, v)
    case TextPresent(needle, file) => needle in rows.forbiddenText && TextReal(inputs.production, needle, file)
    case ZeroRosterHit(entry, files) =>
      entry in rows.zeroRoster && files == Hits(Corpus(inputs), entry) != []
    case _ => exists row :: row in rows.rosters && RosterReal(row, inputs.calls, inputs.references, v)
  }

  ghost predicate RowsReal(rows: Rows, inputs: Inputs, vs: seq<RowViolation>) {
    forall v :: v in vs ==> RowReal(rows, inputs, v)
  }

  ghost predicate DirectComplete(rows: Rows, inputs: Inputs, vs: seq<RowViolation>) {
    forall row :: row in rows.direct ==> DirectHolds(row, inputs.calls) || DirectReported(vs, row)
  }

  ghost predicate RostersComplete(rows: Rows, inputs: Inputs, vs: seq<RowViolation>) {
    forall row :: row in rows.rosters ==>
      RosterHolds(row, inputs.calls, inputs.references) || RosterReported(row, inputs.calls, inputs.references, vs)
  }

  ghost predicate TextsComplete(rows: Rows, inputs: Inputs, vs: seq<RowViolation>) {
    forall n, s :: n in rows.forbiddenText && s in inputs.production && Occurs(s.text, n) ==>
      TextPresent(n, s.file) in vs
  }

  ghost predicate ZeroComplete(rows: Rows, inputs: Inputs, vs: seq<RowViolation>) {
    forall n :: n in rows.zeroRoster ==>
      Absent(Corpus(inputs), n) || ZeroRosterHit(n, Hits(Corpus(inputs), n)) in vs
  }

  // Every failing row is reported, and every file with a forbidden text.
  ghost predicate RowsComplete(rows: Rows, inputs: Inputs, vs: seq<RowViolation>) {
    && DirectComplete(rows, inputs, vs) && RostersComplete(rows, inputs, vs)
    && TextsComplete(rows, inputs, vs) && ZeroComplete(rows, inputs, vs)
  }

  // A list inside a longer one reports no more than that.
  lemma Longer(rows: Rows, inputs: Inputs, before: seq<RowViolation>, part: seq<RowViolation>,
               behind: seq<RowViolation>)
    ensures var vs := before + (part + behind);
            && (DirectComplete(rows, inputs, part) ==> DirectComplete(rows, inputs, vs))
            && (RostersComplete(rows, inputs, part) ==> RostersComplete(rows, inputs, vs))
            && (TextsComplete(rows, inputs, part) ==> TextsComplete(rows, inputs, vs))
            && (ZeroComplete(rows, inputs, part) ==> ZeroComplete(rows, inputs, vs))
  {
    MoreReported(part, behind);
    MoreReported(before, part + behind);
    MoreRostersReported(inputs.calls, inputs.references, part, behind);
    MoreRostersReported(inputs.calls, inputs.references, before, part + behind);
  }

  method DirectRows(rows: Rows, inputs: Inputs) returns (vs: seq<RowViolation>)
    ensures vs == [] <==> forall row :: row in rows.direct ==> DirectHolds(row, inputs.calls)
    ensures DirectComplete(rows, inputs, vs) && RowsReal(rows, inputs, vs)
  {
    vs := DirectViolations(rows.direct, inputs.calls);
  }

  method RosterRows(rows: Rows, inputs: Inputs) returns (vs: seq<RowViolation>)
    ensures vs == [] <==> forall row :: row in rows.rosters ==> RosterHolds(row, inputs.calls, inputs.references)
    ensures RostersComplete(rows, inputs, vs) && RowsReal(rows, inputs, vs)
  {
    vs := AllRosterViolations(rows.rosters, inputs.calls, inputs.references);
    forall v | v in vs ensures RowReal(rows, inputs, v) {
      var row :| row in rows.rosters && RosterReal(row, inputs.calls, inputs.references, v);
    }
  }

  method TextRows(rows: Rows, inputs: Inputs) returns (vs: seq<RowViolation>)
    ensures vs == [] <==> forall n :: n in rows.forbiddenText ==> Absent(inputs.production, n)
    ensures TextsComplete(rows, inputs, vs) && RowsReal(rows, inputs, vs)
  {
    vs := TextViolations(inputs.production, rows.forbiddenText);
  }

  lemma BothAbsent(inputs: Inputs, n: string)
    ensures Absent(Corpus(inputs), n) <==> Absent(inputs.production, n) && Absent(inputs.manifests, n)
  {
    forall s ensures s in Corpus(inputs) <==> s in inputs.production || s in inputs.manifests {}
  }

  method ZeroRows(rows: Rows, inputs: Inputs) returns (vs: seq<RowViolation>)
    ensures vs == []
      <==> forall n :: n in rows.zeroRoster ==> Absent(inputs.production, n) && Absent(inputs.manifests, n)
    ensures ZeroComplete(rows, inputs, vs) && RowsReal(rows, inputs, vs)
  {
    forall n ensures Absent(Corpus(inputs), n) <==> Absent(inputs.production, n) && Absent(inputs.manifests, n) {
      BothAbsent(inputs, n);
    }
    vs := ZeroRosterViolations(Corpus(inputs), rows.zeroRoster);
  }

  lemma GatheredComplete(rows: Rows, inputs: Inputs, direct: seq<RowViolation>, rosters: seq<RowViolation>,
                         texts: seq<RowViolation>, zero: seq<RowViolation>, vs: seq<RowViolation>)
    requires vs == direct + rosters + texts + zero
    requires DirectComplete(rows, inputs, direct) && RostersComplete(rows, inputs, rosters)
    requires TextsComplete(rows, inputs, texts) && ZeroComplete(rows, inputs, zero)
    ensures RowsComplete(rows, inputs, vs)
  {
    assert vs == [] + (direct + (rosters + texts + zero)) == direct + (rosters + (texts + zero));
    assert vs == (direct + rosters) + (texts + zero) == (direct + rosters + texts) + (zero + []);
    Longer(rows, inputs, [], direct, rosters + texts + zero);
    Longer(rows, inputs, direct, rosters, texts + zero);
    Longer(rows, inputs, direct + rosters, texts, zero);
    Longer(rows, inputs, direct + rosters + texts, zero, []);
  }

  lemma GatheredReal(rows: Rows, inputs: Inputs, a: seq<RowViolation>, b: seq<RowViolation>)
    requires RowsReal(rows, inputs, a) && RowsReal(rows, inputs, b)
    ensures RowsReal(rows, inputs, a + b)
  {
  }

  // Nothing to report exactly when every row holds; otherwise every failing row, and nothing that is not so.
  method RowViolations(rows: Rows, inputs: Inputs) returns (vs: seq<RowViolation>)
    ensures vs == [] <==> RowsHold(rows, inputs)
    ensures RowsComplete(rows, inputs, vs) && RowsReal(rows, inputs, vs)
  {
    var direct := DirectRows(rows, inputs);
    var rosters := RosterRows(rows, inputs);
    var texts := TextRows(rows, inputs);
    var zero := ZeroRows(rows, inputs);
    vs := direct + rosters + texts + zero;
    GatheredComplete(rows, inputs, direct, rosters, texts, zero, vs);
    GatheredReal(rows, inputs, direct, rosters);
    GatheredReal(rows, inputs, direct + rosters, texts);
    GatheredReal(rows, inputs, direct + rosters + texts, zero);
  }
}
