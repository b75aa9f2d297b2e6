/** ABI 2.1 feature selection: the checks in their order, and the selection they admit. */
module FeatureSelection {
  import opened Outcomes
  import opened Features
  import opened Powers

  const HOT_RESTART := 2
  const EXACTLY_ONCE := 3
  const SECURITY := 4
  const MAPPED_IO := 7
  const MDL_NO_WRITE := 0
  const MDL_NO_EXECUTE := 1

  const BASE_REQUIRED := FeatureSet(0x10, 0)
  const UNSELECTABLE := FeatureSet(0x360, 0)
  const NO_FEATURES := FeatureSet(0, 0)

  datatype Profile = Win10X64 | Win10Arm64 | Win7X64

  function ProtocolMask(p: Profile): FeatureSet {
    if p == Win7X64 then FeatureSet(0x1f, 0) else FeatureSet(0x9f, 0)
  }

  function OsCapabilityMask(p: Profile): FeatureSet {
    match p
    case Win10X64 => FeatureSet(0x3, 0)
    case Win10Arm64 => FeatureSet(0xb, 0)
    case Win7X64 => FeatureSet(0, 0)
  }

  datatype Input = Input(offered: FeatureSet, required: FeatureSet, requiredOs: FeatureSet,
                         implementation: FeatureSet, probe: FeatureSet, serviceSid: bool)
  datatype Selection = Selection(selected: FeatureSet, detected: FeatureSet)

  datatype MaskError = MissingSecurity | OutsideProfile | ContainsUnselectable | MaskPairMismatch
  datatype SelectionError = RequiredNotOffered | RestartPairMismatch | InvalidImplementationMask
                          | RequiredUnavailable | RequiredOsUnavailable | ServiceSidRequired

  predicate PairMatched(s: FeatureSet) {
    Contains(s, HOT_RESTART) == Contains(s, EXACTLY_ONCE)
  }

  // `validate_implementation_protocol_mask`.
  function ValidateMask(p: Profile, m: FeatureSet): Option<MaskError> {
    if !IsSubset(BASE_REQUIRED, m) then Some(MissingSecurity)
    else if !IsSubset(Intersection(m, UNSELECTABLE), NO_FEATURES) then Some(ContainsUnselectable)
    else if !IsSubset(m, ProtocolMask(p)) then Some(OutsideProfile)
    else if !PairMatched(m) then Some(MaskPairMismatch)
    else None
  }

  // The features offered, allowed by the profile and implemented.
  function Implemented(p: Profile, i: Input): FeatureSet {
    Intersection(Intersection(i.offered, ProtocolMask(p)), i.implementation)
  }

  function DetectedMask(p: Profile, i: Input): FeatureSet {
    Intersection(OsCapabilityMask(p), i.probe)
  }

  // Mapped I/O needs both memory-descriptor capabilities.
  function Runtime(p: Profile, i: Input): FeatureSet {
    if Contains(DetectedMask(p, i), MDL_NO_WRITE) && Contains(DetectedMask(p, i), MDL_NO_EXECUTE) then Implemented(p, i)
    else WithoutBit(Implemented(p, i), MAPPED_IO)
  }

  // The restart pair needs a dedicated service identity.
  function Selected(p: Profile, i: Input): FeatureSet {
    if i.serviceSid then Runtime(p, i) else WithoutBit(WithoutBit(Runtime(p, i), HOT_RESTART), EXACTLY_ONCE)
  }

  function Needed(i: Input): FeatureSet {
    Union(i.required, BASE_REQUIRED)
  }

  // `select_features_v21`.
  function Select(p: Profile, i: Input): Result<Selection, SelectionError> {
    if ValidateMask(p, i.implementation).Some? then Err(InvalidImplementationMask)
    else if !IsSubset(i.required, i.offered) then Err(RequiredNotOffered)
    else if !PairMatched(i.offered) || !PairMatched(i.required) then Err(RestartPairMismatch)
    else if !IsSubset(Needed(i), Implemented(p, i)) then Err(RequiredUnavailable)
    else if !IsSubset(Needed(i), Runtime(p, i)) then Err(RequiredUnavailable)
    else if Contains(i.required, HOT_RESTART) && !i.serviceSid then Err(ServiceSidRequired)
    else if !IsSubset(i.requiredOs, DetectedMask(p, i)) then Err(RequiredOsUnavailable)
    else Ok(Selection(Selected(p, i), DetectedMask(p, i)))
  }

  // ----- What a selection may hold, in feature numbers -----

  // Pass-through, mapping, the restart pair 2 and 3, and security are on every platform; mapped I/O, number 7, is not
  // on Windows 7.
  function Allowed(p: Profile): set<nat> {
    {0, 1, 2, 3, 4} + if p == Win7X64 then {} else {7}
  }

  // The two memory-descriptor capabilities, and number 3 for the ARM64 processor.
  function OsCapabilities(p: Profile): set<nat> {
    match p
    case Win10X64 => {0, 1}
    case Win10Arm64 => {0, 1, 3}
    case Win7X64 => {}
  }

  ghost function Detected(p: Profile, i: Input): set<nat> {
    OsCapabilities(p) * Bits(i.probe)
  }

  ghost predicate Eligible(p: Profile, i: Input, s: set<nat>) {
    && s <= Bits(i.offered) * Allowed(p) * Bits(i.implementation)
    && (7 in s ==> {0, 1} <= Detected(p, i))
    && (2 in s || 3 in s ==> i.serviceSid)
  }

  // The largest eligible set, and the only one that contains every eligible set.
  ghost predicate Greatest(p: Profile, i: Input, s: set<nat>) {
    Eligible(p, i, s) && forall t :: Eligible(p, i, t) ==> t <= s
  }

  ghost predicate Paired(s: set<nat>) {
    2 in s <==> 3 in s
  }

  // The implementation mask the profile accepts.
  ghost predicate MaskOk(p: Profile, m: set<nat>) {
    4 in m && m !! {5, 6, 8, 9} && m <= Allowed(p) && Paired(m)
  }

  lemma ContainsBits(s: FeatureSet, b: nat)
    ensures Contains(s, b) <==> b in Bits(s)
  {
  }

  lemma {:induction false} HighBitsClear(w: nat, k: nat, b: nat)
    requires w < Pow2(k) && k <= b
    ensures !Bit(w, b)
    decreases b
  {
    if b > 0 { HighBitsClear(w / 2, if k == 0 then 0 else k - 1, b - 1); }
  }

  lemma TenBits()
    ensures Pow2(10) == 0x400
  {
    assert Pow2(5) == 32;
  }

  // Only the low ten bits of such a mask can be set.
  lemma LowMask(w: Word, b: nat)
    requires w < 0x400
    ensures b in Bits(FeatureSet(w, 0)) <==> b < 10 && Bit(w, b)
  {
    ContainsIsBit(FeatureSet(w, 0), b);
    if b < WIDTH {
      assert b % WIDTH == b;
      if b >= 10 {
        TenBits();
        HighBitsClear(w, 10, b);
      }
    } else {
      BitZero(b % WIDTH);
    }
  }

  // The numbers of a mask whose low ten bits are known.
  lemma MaskNumbers(w: Word, s: set<nat>)
    requires w < 0x400 && forall b :: b in s ==> b < 10
    requires forall b: nat :: b < 10 ==> (Bit(w, b) <==> b in s)
    ensures Bits(FeatureSet(w, 0)) == s
  {
    forall b: nat ensures b in Bits(FeatureSet(w, 0)) <==> b in s { LowMask(w, b); }
  }

  lemma TenBitsOfMasks()
    ensures Bit(0x9f, 0) && Bit(0x9f, 1) && Bit(0x9f, 2) && Bit(0x9f, 3) && Bit(0x9f, 4)
    ensures !Bit(0x9f, 5) && !Bit(0x9f, 6) && Bit(0x9f, 7) && !Bit(0x9f, 8) && !Bit(0x9f, 9)
    ensures Bit(0x1f, 0) && Bit(0x1f, 1) && Bit(0x1f, 2) && Bit(0x1f, 3) && Bit(0x1f, 4)
    ensures !Bit(0x1f, 5) && !Bit(0x1f, 6) && !Bit(0x1f, 7) && !Bit(0x1f, 8) && !Bit(0x1f, 9)
  {
  }

  lemma ProtocolNumbers(p: Profile)
    ensures Bits(ProtocolMask(p)) == Allowed(p)
  {
    TenBitsOfMasks();
    MaskNumbers(ProtocolMask(p).w0, Allowed(p));
  }

  lemma TenBitsOfCapabilities()
    ensures Bit(0x3, 0) && Bit(0x3, 1) && !Bit(0x3, 2) && !Bit(0x3, 3) && !Bit(0x3, 4)
    ensures !Bit(0x3, 5) && !Bit(0x3, 6) && !Bit(0x3, 7) && !Bit(0x3, 8) && !Bit(0x3, 9)
    ensures Bit(0xb, 0) && Bit(0xb, 1) && !Bit(0xb, 2) && Bit(0xb, 3) && !Bit(0xb, 4)
    ensures !Bit(0xb, 5) && !Bit(0xb, 6) && !Bit(0xb, 7) && !Bit(0xb, 8) && !Bit(0xb, 9)
  {
  }

  lemma OsNumbers(p: Profile)
    ensures Bits(OsCapabilityMask(p)) == OsCapabilities(p)
  {
    TenBitsOfCapabilities();
    forall b: nat ensures !Bit(0, b) { BitZero(b); }
    MaskNumbers(OsCapabilityMask(p).w0, OsCapabilities(p));
  }

  lemma BaseBit(b: nat)
    ensures b in Bits(BASE_REQUIRED) <==> b == SECURITY
  {
    LowMask(0x10, b);
    assert Pow2(4) == 0x10;
    BitOne(4, b);
  }

  lemma TenBitsUnselectable()
    ensures !Bit(0x360, 0) && !Bit(0x360, 1) && !Bit(0x360, 2) && !Bit(0x360, 3) && !Bit(0x360, 4)
    ensures Bit(0x360, 5) && Bit(0x360, 6) && !Bit(0x360, 7) && Bit(0x360, 8) && Bit(0x360, 9)
  {
  }

  lemma UnselectableBit(b: nat)
    ensures b in Bits(UNSELECTABLE) <==> b in {5, 6, 8, 9}
  {
    LowMask(0x360, b);
    TenBitsUnselectable();
  }

  lemma NoFeatureBit(b: nat)
    ensures b !in Bits(NO_FEATURES)
  {
    LowMask(0, b);
    BitZero(b);
  }

  lemma BaseBits()
    ensures Bits(BASE_REQUIRED) == {SECURITY} && Bits(UNSELECTABLE) == {5, 6, 8, 9} && Bits(NO_FEATURES) == {}
  {
    forall b: nat
      ensures (b in Bits(BASE_REQUIRED) <==> b == SECURITY) && (b in Bits(UNSELECTABLE) <==> b in {5, 6, 8, 9})
        && b !in Bits(NO_FEATURES)
    {
      BaseBit(b);
      UnselectableBit(b);
      NoFeatureBit(b);
    }
  }

  lemma SecurityRequired(m: FeatureSet)
    ensures IsSubset(BASE_REQUIRED, m) <==> SECURITY in Bits(m)
  {
    BaseBits();
    SubsetBits(BASE_REQUIRED, m);
  }

  lemma UnselectableRefused(m: FeatureSet)
    ensures IsSubset(Intersection(m, UNSELECTABLE), NO_FEATURES) <==> Bits(m) !! {5, 6, 8, 9}
  {
    BaseBits();
    MasksShareNothing(m, UNSELECTABLE, NO_FEATURES);
  }

  lemma MasksShareNothing(m: FeatureSet, u: FeatureSet, none: FeatureSet)
    requires Bits(none) == {}
    ensures IsSubset(Intersection(m, u), none) <==> Bits(m) !! Bits(u)
  {
    IntersectionBits(m, u);
    SubsetBits(Intersection(m, u), none);
    forall b | b in Bits(m) && b in Bits(u) ensures b in Bits(m) * Bits(u) {}
  }

  lemma MaskAccepted(p: Profile, m: FeatureSet)
    ensures ValidateMask(p, m).None? <==> MaskOk(p, Bits(m))
  {
    SecurityRequired(m);
    UnselectableRefused(m);
    SubsetBits(m, ProtocolMask(p));
    ProtocolNumbers(p);
    ContainsBits(m, HOT_RESTART);
    ContainsBits(m, EXACTLY_ONCE);
  }

  // The selection the code builds, whatever the checks say.
  ghost function Best(p: Profile, i: Input): set<nat> {
    Available(p, i) - if i.serviceSid then {} else {2, 3}
  }

  // What is offered, allowed, implemented and can be mapped.
  ghost function Available(p: Profile, i: Input): set<nat> {
    var common := Bits(i.offered) * Allowed(p) * Bits(i.implementation);
    common - if {0, 1} <= Detected(p, i) then {} else {7}
  }

  lemma BestIsGreatest(p: Profile, i: Input)
    ensures Greatest(p, i, Best(p, i))
  {
    forall t | Eligible(p, i, t) ensures t <= Best(p, i) {
      forall b | b in t ensures b in Best(p, i) {
        assert b in Bits(i.offered) * Allowed(p) * Bits(i.implementation);
      }
    }
  }

  // When negotiation succeeds, in feature numbers.
  ghost predicate Negotiable(p: Profile, i: Input) {
    && MaskOk(p, Bits(i.implementation))
    && Bits(i.required) <= Bits(i.offered) && Paired(Bits(i.offered)) && Paired(Bits(i.required))
    && Bits(i.required) + {4} <= Best(p, i)
    && Bits(i.requiredOs) <= Detected(p, i)
  }

  lemma ImplementedBits(p: Profile, i: Input)
    ensures Bits(Implemented(p, i)) == Bits(i.offered) * Allowed(p) * Bits(i.implementation)
    ensures Bits(DetectedMask(p, i)) == Detected(p, i)
    ensures Bits(Needed(i)) == Bits(i.required) + {SECURITY}
  {
    IntersectionBits(i.offered, ProtocolMask(p));
    IntersectionBits(Intersection(i.offered, ProtocolMask(p)), i.implementation);
    IntersectionBits(OsCapabilityMask(p), i.probe);
    ProtocolNumbers(p);
    OsNumbers(p);
    UnionBits(i.required, BASE_REQUIRED);
    BaseBits();
  }

  ghost predicate Mapped(p: Profile, i: Input) {
    {0, 1} <= Detected(p, i)
  }

  lemma RuntimeBits(p: Profile, i: Input)
    ensures Bits(Runtime(p, i)) == Bits(Implemented(p, i)) - if Mapped(p, i) then {} else {MAPPED_IO}
  {
    ImplementedBits(p, i);
    ContainsBits(DetectedMask(p, i), MDL_NO_WRITE);
    ContainsBits(DetectedMask(p, i), MDL_NO_EXECUTE);
    WithoutBits(Implemented(p, i), MAPPED_IO);
  }

  lemma SelectedBits(p: Profile, i: Input)
    ensures Bits(Selected(p, i)) == Bits(Runtime(p, i)) - if i.serviceSid then {} else {HOT_RESTART, EXACTLY_ONCE}
    ensures Bits(Selected(p, i)) == Best(p, i)
  {
    WithoutBits(Runtime(p, i), HOT_RESTART);
    WithoutBits(WithoutBit(Runtime(p, i), HOT_RESTART), EXACTLY_ONCE);
    RuntimeBits(p, i);
    ImplementedBits(p, i);
  }

  // The ordered checks of the code, in feature numbers.
  ghost predicate ChecksPass(p: Profile, i: Input) {
    && MaskOk(p, Bits(i.implementation))
    && Bits(i.required) <= Bits(i.offered) && Paired(Bits(i.offered)) && Paired(Bits(i.required))
    && Bits(Needed(i)) <= Bits(Implemented(p, i)) && Bits(Needed(i)) <= Bits(Runtime(p, i))
    && (HOT_RESTART in Bits(i.required) ==> i.serviceSid)
    && Bits(i.requiredOs) <= Bits(DetectedMask(p, i))
  }

  lemma SelectChecks(p: Profile, i: Input)
    ensures Select(p, i).Ok? <==> ChecksPass(p, i)
  {
    MaskAccepted(p, i.implementation);
    SubsetBits(i.required, i.offered);
    SubsetBits(Needed(i), Implemented(p, i));
    SubsetBits(Needed(i), Runtime(p, i));
    SubsetBits(i.requiredOs, DetectedMask(p, i));
    ContainsBits(i.required, HOT_RESTART);
    ContainsBits(i.required, EXACTLY_ONCE);
    ContainsBits(i.offered, HOT_RESTART);
    ContainsBits(i.offered, EXACTLY_ONCE);
  }

  // The selection of the words is the selection of the sets.
  lemma SelectMeaning(p: Profile, i: Input)
    ensures Select(p, i).Ok? <==> Negotiable(p, i)
    ensures Select(p, i).Ok? ==>
      Bits(Select(p, i).value.selected) == Best(p, i) && Bits(Select(p, i).value.detected) == Detected(p, i)
  {
    SelectChecks(p, i);
    ImplementedBits(p, i);
    RuntimeBits(p, i);
    SelectedBits(p, i);
    ChecksAreNegotiable(p, i);
  }

  lemma ChecksAreNegotiable(p: Profile, i: Input)
    requires Bits(Needed(i)) == Bits(i.required) + {SECURITY} && Bits(DetectedMask(p, i)) == Detected(p, i)
    requires Bits(Runtime(p, i)) == Bits(Implemented(p, i)) - if Mapped(p, i) then {} else {MAPPED_IO}
    requires Best(p, i) == Bits(Runtime(p, i)) - if i.serviceSid then {} else {HOT_RESTART, EXACTLY_ONCE}
    ensures ChecksPass(p, i) <==> Negotiable(p, i)
  {
  }

  // A successful negotiation selects the greatest eligible set, with everything that
  // was required, the mandatory feature, nothing unselectable, and the restart pair whole.
  lemma SelectionIsGreatest(p: Profile, i: Input)
    requires Select(p, i).Ok?
    ensures var s := Bits(Select(p, i).value.selected);
            && Greatest(p, i, s) && Bits(i.required) <= s && SECURITY in s && s !! {5, 6, 8, 9} && Paired(s)
  {
    SelectMeaning(p, i);
    BestIsGreatest(p, i);
    BestPaired(p, i);
  }

  lemma BestPaired(p: Profile, i: Input)
    requires Negotiable(p, i)
    ensures Paired(Best(p, i)) && Best(p, i) !! {5, 6, 8, 9}
  {
  }

  // Negotiating again with the selection as offer and requirement changes nothing.
  lemma SelectionIsStable(p: Profile, i: Input)
    requires Select(p, i).Ok?
    ensures var s := Select(p, i).value.selected;
            Select(p, i.(offered := s, required := s)) == Select(p, i)
  {
    var s := Select(p, i).value.selected;
    var j := i.(offered := s, required := s);
    SelectMeaning(p, i);
    BestPaired(p, i);
    StableBest(p, i, j);
    SelectMeaning(p, j);
    SameBits(s, Select(p, j).value.selected);
  }

  lemma StableBest(p: Profile, i: Input, j: Input)
    requires j == i.(offered := j.offered, required := j.required) && Bits(j.offered) == Best(p, i)
    ensures Best(p, j) == Best(p, i) && Detected(p, j) == Detected(p, i)
  {
  }

  // ----- The answers, one by one -----

  // Every refusal says exactly what is wrong, and what was already found right.
  lemma SelectErrors(p: Profile, i: Input)
    ensures var r := Select(p, i);
            var sound := MaskOk(p, Bits(i.implementation));
            var offered := sound && Bits(i.required) <= Bits(i.offered);
            var paired := offered && Paired(Bits(i.offered)) && Paired(Bits(i.required));
            var available := paired && Bits(i.required) + {4} <= Available(p, i);
            var served := available && (2 in Bits(i.required) ==> i.serviceSid);
            && (r == Err(InvalidImplementationMask) <==> !sound)
            && (r == Err(RequiredNotOffered) <==> sound && !offered)
            && (r == Err(RestartPairMismatch) <==> offered && !paired)
            && (r == Err(RequiredUnavailable) <==> paired && !available)
            && (r == Err(ServiceSidRequired) <==> available && !served)
            && (r == Err(RequiredOsUnavailable) <==> served && !(Bits(i.requiredOs) <= Detected(p, i)))
  {
    MaskAccepted(p, i.implementation);
    SubsetBits(i.required, i.offered);
    SubsetBits(i.requiredOs, DetectedMask(p, i));
    ContainsBits(i.required, HOT_RESTART);
    ContainsBits(i.required, EXACTLY_ONCE);
    ContainsBits(i.offered, HOT_RESTART);
    ContainsBits(i.offered, EXACTLY_ONCE);
    ImplementedBits(p, i);
    AvailableChecked(p, i);
  }

  lemma AvailableChecked(p: Profile, i: Input)
    ensures IsSubset(Needed(i), Implemented(p, i)) && IsSubset(Needed(i), Runtime(p, i))
       <==> Bits(i.required) + {4} <= Available(p, i)
  {
    SubsetBits(Needed(i), Implemented(p, i));
    SubsetBits(Needed(i), Runtime(p, i));
    ImplementedBits(p, i);
    RuntimeBits(p, i);
  }

  lemma MaskErrors(p: Profile, m: FeatureSet)
    ensures var e := ValidateMask(p, m);
            && (e == Some(MissingSecurity) <==> 4 !in Bits(m))
            && (e == Some(ContainsUnselectable) <==> 4 in Bits(m) && !(Bits(m) !! {5, 6, 8, 9}))
            && (e == Some(OutsideProfile) <==> 4 in Bits(m) && Bits(m) !! {5, 6, 8, 9} && !(Bits(m) <= Allowed(p)))
            && (e == Some(MaskPairMismatch) <==> 4 in Bits(m) && Bits(m) <= Allowed(p) && !Paired(Bits(m)))
  {
    SecurityRequired(m);
    UnselectableRefused(m);
    SubsetBits(m, ProtocolMask(p));
    ProtocolNumbers(p);
    ContainsBits(m, HOT_RESTART);
    ContainsBits(m, EXACTLY_ONCE);
  }

  // Windows 7 never maps I/O, and never reports a capability.
  lemma Windows7Selection(i: Input)
    requires Select(Win7X64, i).Ok?
    ensures var s := Select(Win7X64, i).value; Bits(s.selected) <= {0, 1, 2, 3, 4} && Bits(s.detected) == {}
  {
    SelectMeaning(Win7X64, i);
  }

  // A full offer on Windows 10 selects everything there is.
  lemma FullOffer(p: Profile, i: Input)
    requires p != Win7X64 && Bits(i.offered) == {0, 1, 2, 3, 4, 7} && Bits(i.implementation) == {0, 1, 2, 3, 4, 7}
    requires Bits(i.required) == {4} && Bits(i.requiredOs) == {} && {0, 1} <= Bits(i.probe) && i.serviceSid
    ensures Select(p, i).Ok? && Bits(Select(p, i).value.selected) == {0, 1, 2, 3, 4, 7}
  {
    SelectMeaning(p, i);
    assert {0, 1} <= Detected(p, i);
  }

  ghost predicate Wider(i: Input, j: Input) {
    && Bits(i.offered) <= Bits(j.offered) && Bits(i.implementation) <= Bits(j.implementation)
    && Bits(i.probe) <= Bits(j.probe) && (i.serviceSid ==> j.serviceSid)
    && i.required == j.required && i.requiredOs == j.requiredOs
  }

  // A wider offer, implementation, probe or identity never loses success or a feature.
  lemma SelectionIsMonotone(p: Profile, i: Input, j: Input)
    requires Select(p, i).Ok? && Wider(i, j)
    requires Paired(Bits(j.offered)) && MaskOk(p, Bits(j.implementation))
    ensures Select(p, j).Ok? && Bits(Select(p, i).value.selected) <= Bits(Select(p, j).value.selected)
  {
    SelectMeaning(p, i);
    SelectMeaning(p, j);
    WiderBest(p, i, j);
  }

  lemma WiderBest(p: Profile, i: Input, j: Input)
    requires Wider(i, j)
    ensures Best(p, i) <= Best(p, j) && Detected(p, i) <= Detected(p, j)
  {
    assert Detected(p, i) <= Detected(p, j);
    forall b | b in Best(p, i) ensures b in Best(p, j) {
      assert b in Bits(i.offered) * Allowed(p) * Bits(i.implementation);
      assert b in Bits(j.offered) * Allowed(p) * Bits(j.implementation);
    }
  }
}
