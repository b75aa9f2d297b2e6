/** A call graph whose recursion has two entries, on which the walk under-reports. */
module ChainExamples {
  import opened Orders
  import opened Paths
  import opened StackChain
  import opened ChainBounds

  const GRAPH: map<string, set<string>> := map["r" := {"a", "b"}, "a" := {"b", "d"}, "b" := {"a"}]
  const FRAMES: map<string, nat> := map["r" := 1, "a" := 2, "b" := 4, "d" := 8]

  lemma SortedSingle(a: string)
    ensures SortedSet({a}) == [a]
  {
    SortedSetAscending({a});
    AscendingUnique(SortedSet({a}), [a]);
  }

  lemma SortedPair(a: string, b: string)
    requires NameLe(a, b) && a != b
    ensures SortedSet({a, b}) == [a, b]
  {
    SortedSetAscending({a, b});
    AscendingUnique(SortedSet({a, b}), [a, b]);
  }

  lemma WalkB()
    ensures Walk(FRAMES, GRAPH, "b", ["r", "a"], EMPTY_MEMO)
         == (Deep(4, [Charged("b", 4)]), Memo(["b"], map["b" := Deep(4, [Charged("b", 4)])]))
  {
    SortedSingle("a");
    assert ["r", "a"] + ["b"] == ["r", "a", "b"];
    assert Walk(FRAMES, GRAPH, "a", ["r", "a", "b"], EMPTY_MEMO) == (Deep(0, [CycleCut("a")]), EMPTY_MEMO);
    assert Scan(FRAMES, GRAPH, "b", ["r", "a"], ["a"], Deep(0, []), EMPTY_MEMO) == (Deep(0, []), EMPTY_MEMO);
    var alone := Deep(4, [Charged("b", 4)]);
    assert Over(FRAMES, "b", Deep(0, [])) == alone;
    assert Insert(EMPTY_MEMO, "b", alone) == Memo(["b"], map["b" := alone]);
    assert Succ(GRAPH, "b") == {"a"};
  }

  lemma WalkA()
    ensures Walk(FRAMES, GRAPH, "a", ["r"], EMPTY_MEMO).0.bytes == 10
    ensures "b" in Walk(FRAMES, GRAPH, "a", ["r"], EMPTY_MEMO).1.at
    ensures Walk(FRAMES, GRAPH, "a", ["r"], EMPTY_MEMO).1.at["b"].bytes == 4
  {
    var m := Memo(["b"], map["b" := Deep(4, [Charged("b", 4)])]);
    WalkB();
    SortedPair("b", "d");
    assert ["r"] + ["a"] == ["r", "a"];
    assert SortedSet({}) == [];
    assert Succ(GRAPH, "d") == {};
    var leaf := Deep(8, [Charged("d", 8)]);
    assert Over(FRAMES, "d", Deep(0, [])) == leaf;
    assert Walk(FRAMES, GRAPH, "d", ["r", "a"], m) == (leaf, Insert(m, "d", leaf));
    assert Scan(FRAMES, GRAPH, "a", ["r"], ["d"], Deep(4, [Charged("b", 4)]), m) == (leaf, Insert(m, "d", leaf));
    assert Scan(FRAMES, GRAPH, "a", ["r"], ["b", "d"], Deep(0, []), EMPTY_MEMO) == (leaf, Insert(m, "d", leaf));
    assert Succ(GRAPH, "a") == {"b", "d"};
  }

  lemma ScanB(deepest: Deep, m: Memo)
    requires "b" in m.at && m.at["b"].bytes <= deepest.bytes
    ensures Scan(FRAMES, GRAPH, "r", [], ["b"], deepest, m) == (deepest, m)
  {
    assert [] + ["r"] == ["r"];
    assert Walk(FRAMES, GRAPH, "b", ["r"], m) == (m.at["b"], m);
    assert ["b"][1..] == [];
  }

  lemma ScanAB(da: Deep, ma: Memo)
    requires Walk(FRAMES, GRAPH, "a", ["r"], EMPTY_MEMO) == (da, ma) && 0 < da.bytes
    requires "b" in ma.at && ma.at["b"].bytes <= da.bytes
    ensures Scan(FRAMES, GRAPH, "r", [], ["a", "b"], Deep(0, []), EMPTY_MEMO) == (da, ma)
  {
    assert [] + ["r"] == ["r"] && ["a", "b"][1..] == ["b"] && ["a", "b"][0] == "a";
    ScanB(da, ma);
  }

  lemma WalkRoot()
    ensures ChainBytes(FRAMES, GRAPH, "r").bytes == 11
  {
    WalkA();
    SortedPair("a", "b");
    assert Succ(GRAPH, "r") == {"a", "b"};
    var (da, ma) := Walk(FRAMES, GRAPH, "a", ["r"], EMPTY_MEMO);
    ScanAB(da, ma);
  }

  lemma DeepRoute()
    ensures RootPath(GRAPH, "r", ["r", "b", "a", "d"]) && FrameSum(FRAMES, ["r", "b", "a", "d"]) == 15
  {
    var p := ["r", "b", "a", "d"];
    assert p[1..] == ["b", "a", "d"] && ["b", "a", "d"][1..] == ["a", "d"] && ["a", "d"][1..] == ["d"];
    assert FrameSum(FRAMES, ["d"]) == 8;
    assert FrameSum(FRAMES, ["a", "d"]) == 10;
    assert FrameSum(FRAMES, ["b", "a", "d"]) == 14;
    assert Step(GRAPH, p, 0) && Step(GRAPH, p, 1) && Step(GRAPH, p, 2);
  }

  // The reported total is 11 bytes, while r -> b -> a -> d takes 15.
  lemma TwoEntryRecursionUnderReported()
    ensures ChainBytes(FRAMES, GRAPH, "r").bytes == 11
    ensures RootPath(GRAPH, "r", ["r", "b", "a", "d"]) && FrameSum(FRAMES, ["r", "b", "a", "d"]) == 15
    ensures !Exact(FRAMES, GRAPH, "r") && !SingleEntry(GRAPH, "r")
  {
    WalkRoot();
    DeepRoute();
    if SingleEntry(GRAPH, "r") { SingleEntryExact(FRAMES, GRAPH, "r"); }
  }
}
