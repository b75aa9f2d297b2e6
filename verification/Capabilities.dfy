/** The capability bundle of the active attestation profile. */
module Capabilities {
  import opened Outcomes

  const TASK12_GATE := "task12_r3_cutover_has_exactly_one_terminal_delete_path"
  const TASK12_DELETE := "task12_delete_requires_r3_discharge_and_later_authority_absence"
  const R4_GATE := "task13_18_r4_staging_is_production_unreachable"
  const R4_CUTOVER_GATE := "task19_r4_cutover_has_exactly_one_pending_terminal_delete_path"
  const R5_GATE := "task20_24_r5_staging_is_production_unreachable"
  const R5_CUTOVER_GATE := "task25_r5_cutover_has_exactly_one_all16_terminal_delete_path"
  const KNOWN_ROWS: seq<string> := [TASK12_GATE, TASK12_DELETE, R4_GATE, R4_CUTOVER_GATE, R5_GATE, R5_CUTOVER_GATE]
  const ACTIVE_PROFILE := "r5-cutover"

  const R4_CUTOVER: bv8 := 1 << 4
  const R5_CUTOVER: bv8 := 1 << 5

  datatype ParseError = UnknownProfile | MissingKnownRow(row: string) | DuplicateKnownRow(row: string)
                      | DuplicateUnrelatedRow | ProfileInappropriateRow(row: string)

  function CountRow(rows: seq<string>, row: string): nat {
    if rows == [] then 0 else (if rows[0] == row then 1 else 0) + CountRow(rows[1..], row)
  }

  lemma {:induction false} CountIsMultiplicity(rows: seq<string>, row: string)
    ensures CountRow(rows, row) == multiset(rows)[row]
    decreases |rows|
  {
    if rows != [] {
      CountIsMultiplicity(rows[1..], row);
      assert rows == [rows[0]] + rows[1..];
    }
  }

  // No name occurs twice in the gates followed by the properties.
  ghost predicate NoRepeat(gates: seq<string>, properties: seq<string>) {
    forall row :: (multiset(gates) + multiset(properties))[row] <= 1
  }

  function RequireRow(rows: seq<string>, row: string): Option<ParseError> {
    if CountRow(rows, row) == 1 then None else Some(MissingKnownRow(row))
  }

  function RejectProfileRow(gates: seq<string>, properties: seq<string>, row: string): Option<ParseError> {
    if CountRow(gates, row) + CountRow(properties, row) == 0 then None else Some(ProfileInappropriateRow(row))
  }

  lemma OneMoreRow(rows: seq<string>, i: nat)
    requires i < |rows|
    ensures rows[..i + 1] == rows[..i] + [rows[i]]
    ensures multiset(rows[..i + 1]) == multiset(rows[..i]) + multiset{rows[i]}
    ensures rows[i] !in rows[..i] ==> multiset(rows[..i])[rows[i]] == 0
  {
    assert rows[..i + 1] == rows[..i] + [rows[i]];
    assert rows[i] in rows[..i] <==> rows[i] in multiset(rows[..i]);
  }

  lemma SecondRow(rows: seq<string>, others: seq<string>, i: nat)
    requires i < |rows| && (rows[i] in rows[..i] || rows[i] in others)
    ensures (multiset(rows) + multiset(others))[rows[i]] > 1
  {
    var row := rows[i];
    assert rows == rows[..i] + ([row] + rows[i + 1..]);
    assert row in multiset(rows[..i]) || row in multiset(others);
  }

  // `reject_duplicate_unrelated_rows`: some row outside the known ones occurs twice.
  method RepeatsUnrelated(gates: seq<string>, properties: seq<string>) returns (r: bool)
    ensures r <==> exists row :: row !in KNOWN_ROWS && (multiset(gates) + multiset(properties))[row] > 1
  {
    for i := 0 to |gates|
      invariant forall row :: row in gates[..i] && row !in KNOWN_ROWS ==>
        multiset(gates[..i])[row] == 1 && row !in properties
    {
      var row := gates[i];
      OneMoreRow(gates, i);
      if row !in KNOWN_ROWS && (row in gates[..i] || row in properties) {
        SecondRow(gates, properties, i);
        return true;
      }
    }
    assert gates[..|gates|] == gates;
    for i := 0 to |properties|
      invariant forall row :: row in properties[..i] && row !in KNOWN_ROWS ==> multiset(properties[..i])[row] == 1
    {
      var row := properties[i];
      OneMoreRow(properties, i);
      if row !in KNOWN_ROWS && row in properties[..i] {
        SecondRow(properties, gates, i);
        return true;
      }
    }
    assert properties[..|properties|] == properties;
    forall row | row !in KNOWN_ROWS ensures (multiset(gates) + multiset(properties))[row] <= 1 {
      if row in multiset(gates) { assert row in gates; assert row !in multiset(properties); }
    }
    return false;
  }

  // What the active profile demands of the two rosters.
  ghost predicate Bundle(profile: string, gates: seq<string>, properties: seq<string>) {
    && profile == ACTIVE_PROFILE && NoRepeat(gates, properties)
    && R4_CUTOVER_GATE in gates && R5_CUTOVER_GATE in gates
    && R4_GATE !in gates + properties && R5_GATE !in gates + properties
  }

  ghost predicate Repeated(gates: seq<string>, properties: seq<string>, row: string) {
    (multiset(gates) + multiset(properties))[row] > 1
  }

  // What each error says about the rosters. No two of these hold together, and none holds of a bundle.
  ghost predicate Explains(e: ParseError, profile: string, gates: seq<string>, properties: seq<string>) {
    match e
    case UnknownProfile => profile != ACTIVE_PROFILE
    case DuplicateKnownRow(row) =>
      && profile == ACTIVE_PROFILE
      && exists i :: 0 <= i < |KNOWN_ROWS| && KNOWN_ROWS[i] == row && Repeated(gates, properties, row)
                     && forall j :: 0 <= j < i ==> !Repeated(gates, properties, KNOWN_ROWS[j])
    case DuplicateUnrelatedRow =>
      && profile == ACTIVE_PROFILE
      && (forall j :: 0 <= j < |KNOWN_ROWS| ==> !Repeated(gates, properties, KNOWN_ROWS[j]))
      && exists row :: row !in KNOWN_ROWS && Repeated(gates, properties, row)
    case MissingKnownRow(row) =>
      && profile == ACTIVE_PROFILE && NoRepeat(gates, properties) && row !in gates
      && (row == R4_CUTOVER_GATE || (row == R5_CUTOVER_GATE && R4_CUTOVER_GATE in gates))
    case ProfileInappropriateRow(row) =>
      && profile == ACTIVE_PROFILE && NoRepeat(gates, properties) && row in gates + properties
      && R4_CUTOVER_GATE in gates && R5_CUTOVER_GATE in gates
      && (row == R5_GATE || (row == R4_GATE && R5_GATE !in gates + properties))
  }

  // `parse_required_row_capabilities`: it succeeds exactly on such a bundle, always with the same bits.
  method ParseCapabilities(profile: string, gates: seq<string>, properties: seq<string>)
    returns (r: Result<bv8, ParseError>)
    ensures r.Ok? <==> Bundle(profile, gates, properties)
    ensures r.Ok? ==> r.value == 0x30
    ensures r.Err? ==> Explains(r.error, profile, gates, properties)
  {
    if profile != ACTIVE_PROFILE {
      return Err(UnknownProfile);
    }
    for i := 0 to |KNOWN_ROWS|
      invariant forall j :: 0 <= j < i ==> !Repeated(gates, properties, KNOWN_ROWS[j])
    {
      var name := KNOWN_ROWS[i];
      CountIsMultiplicity(gates, name);
      CountIsMultiplicity(properties, name);
      if CountRow(gates, name) + CountRow(properties, name) > 1 {
        assert Repeated(gates, properties, name);
        return Err(DuplicateKnownRow(name));
      }
    }
    var repeats := RepeatsUnrelated(gates, properties);
    if repeats {
      ghost var row :| row !in KNOWN_ROWS && (multiset(gates) + multiset(properties))[row] > 1;
      assert Repeated(gates, properties, row);
      return Err(DuplicateUnrelatedRow);
    }
    assert NoRepeat(gates, properties) by {
      forall row ensures (multiset(gates) + multiset(properties))[row] <= 1 {
        if row in KNOWN_ROWS {
          var j :| 0 <= j < |KNOWN_ROWS| && KNOWN_ROWS[j] == row;
          assert !Repeated(gates, properties, KNOWN_ROWS[j]);
        }
      }
    }
    RowFacts(gates, properties);
    var missing := RequireRow(gates, R4_CUTOVER_GATE);
    if missing.Some? { return Err(missing.value); }
    missing := RequireRow(gates, R5_CUTOVER_GATE);
    if missing.Some? { return Err(missing.value); }
    var bad := RejectProfileRow(gates, properties, R5_GATE);
    if bad.Some? { return Err(bad.value); }
    bad := RejectProfileRow(gates, properties, R4_GATE);
    if bad.Some? { return Err(bad.value); }
    return Ok(R4_CUTOVER | R5_CUTOVER);
  }

  // So the outcome is determined: at most one error fits, and none fits a bundle.
  lemma OutcomeDetermined(e: ParseError, e': ParseError, profile: string, gates: seq<string>, properties: seq<string>)
    requires Explains(e, profile, gates, properties)
    ensures !Bundle(profile, gates, properties)
    ensures Explains(e', profile, gates, properties) ==> e == e'
  {
    forall row | Repeated(gates, properties, row) ensures !NoRepeat(gates, properties) {}
  }

  lemma RowFacts(gates: seq<string>, properties: seq<string>)
    requires NoRepeat(gates, properties)
    ensures RequireRow(gates, R4_CUTOVER_GATE).None? <==> R4_CUTOVER_GATE in gates
    ensures RequireRow(gates, R5_CUTOVER_GATE).None? <==> R5_CUTOVER_GATE in gates
    ensures RejectProfileRow(gates, properties, R4_GATE).None? <==> R4_GATE !in gates + properties
    ensures RejectProfileRow(gates, properties, R5_GATE).None? <==> R5_GATE !in gates + properties
  {
    RowFact(gates, properties, R4_CUTOVER_GATE);
    RowFact(gates, properties, R5_CUTOVER_GATE);
    RowFact(gates, properties, R4_GATE);
    RowFact(gates, properties, R5_GATE);
  }

  lemma RowFact(gates: seq<string>, properties: seq<string>, row: string)
    requires NoRepeat(gates, properties)
    ensures CountRow(gates, row) == 1 <==> row in gates
    ensures CountRow(gates, row) + CountRow(properties, row) == 0 <==> row !in gates + properties
  {
    CountIsMultiplicity(gates, row);
    CountIsMultiplicity(properties, row);
    assert row in gates <==> row in multiset(gates);
    assert row in properties <==> row in multiset(properties);
    assert (multiset(gates) + multiset(properties))[row] <= 1;
  }

  // The order of either roster is irrelevant.
  lemma BundlePermutes(profile: string, gates: seq<string>, properties: seq<string>, gates': seq<string>,
                       properties': seq<string>)
    requires multiset(gates) == multiset(gates') && multiset(properties) == multiset(properties')
    ensures Bundle(profile, gates, properties) <==> Bundle(profile, gates', properties')
  {
    forall row ensures (row in gates <==> row in gates') && (row in properties <==> row in properties') {
      assert row in gates <==> row in multiset(gates);
      assert row in gates' <==> row in multiset(gates');
      assert row in properties <==> row in multiset(properties);
      assert row in properties' <==> row in multiset(properties');
    }
  }
}
