/** The stack-depth walk: a depth-first search over a call graph that may have
    cycles. It cuts a call into its own call stack, remembers every finished
    function except the root, and reports a byte total with the path it charged. */
module StackChain {
  import opened Orders
  import opened Outcomes
  import opened Paths

  // One step of the reported path; a cut call is reported by name alone.
  datatype Entry = Charged(name: string, own: nat) | CycleCut(name: string)
  datatype Deep = Deep(bytes: nat, path: seq<Entry>)

  // The memo dictionary: its keys in the order they were inserted, and its values.
  datatype Memo = Memo(order: seq<string>, at: map<string, Deep>)

  const EMPTY_MEMO := Memo([], map[])

  // An unmeasured function contributes nothing.
  function Own(frames: map<string, nat>, name: string): nat {
    if name in frames then frames[name] else 0
  }

  function Merge(calls: map<string, set<string>>, indirect: map<string, set<string>>): map<string, set<string>> {
    map n | n in calls.Keys + indirect.Keys :: Succ(calls, n) + Succ(indirect, n)
  }

  function Insert(memo: Memo, name: string, deep: Deep): Memo {
    Memo(memo.order + [name], memo.at[name := deep])
  }

  // Callers not yet on the stack: what the recursion uses up.
  ghost function Unvisited(g: map<string, set<string>>, stack: seq<string>): nat {
    |g.Keys - Elems(stack)|
  }

  lemma DeeperStack(g: map<string, set<string>>, stack: seq<string>, name: string)
    requires name in g && name !in stack
    ensures Unvisited(g, stack + [name]) < Unvisited(g, stack)
  {
    var rest := g.Keys - Elems(stack);
    assert g.Keys - Elems(stack + [name]) == rest - {name};
    assert name in rest;
  }

  function Walk(frames: map<string, nat>, g: map<string, set<string>>, name: string, stack: seq<string>,
                memo: Memo): (Deep, Memo)
    decreases Unvisited(g, stack), 1, 0
  {
    if name in stack then (Deep(0, [CycleCut(name)]), memo)
    else if name in memo.at then (memo.at[name], memo)
    else
      var (deepest, memo') := Scan(frames, g, name, stack, SortedSet(Succ(g, name)), Deep(0, []), memo);
      var result := Over(frames, name, deepest);
      (result, if stack == [] then memo' else Insert(memo', name, result))
  }

  // The loop over the sorted callees of `name`.
  function Scan(frames: map<string, nat>, g: map<string, set<string>>, name: string, stack: seq<string>,
                rest: seq<string>, deepest: Deep, memo: Memo): (Deep, Memo)
    requires name !in stack && forall c :: c in rest ==> c in Succ(g, name)
    decreases Unvisited(g, stack), 0, |rest|
  {
    if rest == [] then (deepest, memo)
    else if rest[0] == name then Scan(frames, g, name, stack, rest[1..], deepest, memo)
    else
      assert rest[0] in Succ(g, name);
      DeeperStack(g, stack, name);
      var (sub, memo') := Walk(frames, g, rest[0], stack + [name], memo);
      Scan(frames, g, name, stack, rest[1..], if sub.bytes > deepest.bytes then sub else deepest, memo')
  }

  // `chain_bytes`.
  function ChainBytes(frames: map<string, nat>, g: map<string, set<string>>, root: string): Deep {
    Walk(frames, g, root, [], EMPTY_MEMO).0
  }

  // The memo as the walk leaves it, with the root entered last.
  ghost function Finished(frames: map<string, nat>, g: map<string, set<string>>, root: string): Memo {
    var (deep, memo) := Walk(frames, g, root, [], EMPTY_MEMO);
    Insert(memo, root, deep)
  }

  // ----- What every step of the walk keeps -----

  ghost predicate KeysOk(memo: Memo) {
    Simple(memo.order) && forall x :: x in memo.order <==> x in memo.at
  }

  // The depth of `x` when its deepest callee is `sub`.
  function Over(frames: map<string, nat>, x: string, sub: Deep): Deep {
    Deep(Own(frames, x) + sub.bytes, [Charged(x, Own(frames, x))] + sub.path)
  }

  // The value of an entry is its own frame plus the deepest callee finished before it.
  ghost predicate Balanced(frames: map<string, nat>, g: map<string, set<string>>, memo: Memo, x: string,
                           before: seq<string>, d: Deep)
    requires forall c :: c in before ==> c in memo.at
  {
    && Own(frames, x) <= d.bytes
    && (forall c :: c in Succ(g, x) && c in before ==> Own(frames, x) + memo.at[c].bytes <= d.bytes)
    && (d == Deep(Own(frames, x), [Charged(x, Own(frames, x))])
        || exists c :: c in Succ(g, x) && c in before && d == Over(frames, x, memo.at[c]))
  }

  ghost predicate AllBalanced(frames: map<string, nat>, g: map<string, set<string>>, memo: Memo)
    requires KeysOk(memo)
  {
    forall i :: 0 <= i < |memo.order| ==>
      Balanced(frames, g, memo, memo.order[i], memo.order[..i], memo.at[memo.order[i]])
  }

  // `c` was on the call stack when `x` was walked.
  ghost predicate CutFrom(g: map<string, set<string>>, root: string, x: string, c: string) {
    exists p :: PathTo(g, p, root, x) && Simple(p) && c in p
  }

  ghost predicate CalleesDone(g: map<string, set<string>>, root: string, order: seq<string>, i: int)
    requires 0 <= i < |order|
  {
    forall c :: c in Succ(g, order[i]) ==>
      c == order[i] || c in order[..i] || CutFrom(g, root, order[i], c)
  }

  ghost predicate HasCaller(g: map<string, set<string>>, order: seq<string>, stack: seq<string>, i: int)
    requires 0 <= i < |order|
  {
    exists u :: order[i] in Succ(g, u) && u != order[i] && (u in order[i + 1..] || u in stack)
  }

  // Every callee of a finished function is finished or on the stack.
  ghost predicate Enclosed(g: map<string, set<string>>, order: seq<string>, stack: seq<string>) {
    forall x :: x in order ==> Succ(g, x) <= Elems(order + stack)
  }

  ghost predicate WalkState(frames: map<string, nat>, g: map<string, set<string>>, root: string, stack: seq<string>,
                            memo: Memo)
  {
    && KeysOk(memo)
    && AllBalanced(frames, g, memo)
    && (forall i :: 0 <= i < |memo.order| ==> CalleesDone(g, root, memo.order, i))
    && (forall i :: 0 <= i < |memo.order| ==> HasCaller(g, memo.order, stack, i))
    && Enclosed(g, memo.order, stack)
    && (forall x :: x in stack ==> x !in memo.at)
  }

  ghost predicate StackOk(g: map<string, set<string>>, root: string, stack: seq<string>) {
    IsPath(g, stack) && Simple(stack) && stack[0] == root
  }

  ghost predicate Extends(older: Memo, newer: Memo) {
    && older.order <= newer.order
    && forall x :: x in older.at ==> x in newer.at && newer.at[x] == older.at[x]
  }

  lemma InsertBalanced(frames: map<string, nat>, g: map<string, set<string>>, name: string, memo: Memo, d: Deep)
    requires KeysOk(memo) && AllBalanced(frames, g, memo) && name !in memo.at
    requires Balanced(frames, g, memo, name, memo.order, d)
    ensures KeysOk(Insert(memo, name, d)) && AllBalanced(frames, g, Insert(memo, name, d))
  {
    var m := Insert(memo, name, d);
    forall i | 0 <= i < |m.order|
      ensures Balanced(frames, g, m, m.order[i], m.order[..i], m.at[m.order[i]])
    {
      if i < |memo.order| {
        assert m.order[..i] == memo.order[..i] && m.order[i] == memo.order[i];
        assert Balanced(frames, g, memo, memo.order[i], memo.order[..i], memo.at[memo.order[i]]);
      } else {
        assert m.order[..i] == memo.order;
      }
    }
  }

  lemma InsertCalleesDone(g: map<string, set<string>>, root: string, full: seq<string>, order: seq<string>,
                          name: string)
    requires StackOk(g, root, full) && full[|full| - 1] == name
    requires forall i :: 0 <= i < |order| ==> CalleesDone(g, root, order, i)
    requires forall c :: c in Succ(g, name) ==> c in full || c in order
    ensures forall i :: 0 <= i < |order + [name]| ==> CalleesDone(g, root, order + [name], i)
  {
    var order' := order + [name];
    forall i | 0 <= i < |order'| ensures CalleesDone(g, root, order', i) {
      if i < |order| {
        assert order'[..i] == order[..i] && CalleesDone(g, root, order, i);
      } else {
        assert order'[..i] == order;
        assert PathTo(g, full, root, name);
      }
    }
  }

  lemma InsertHasCaller(g: map<string, set<string>>, order: seq<string>, stack: seq<string>, name: string, i: int)
    requires 0 <= i < |order| && HasCaller(g, order, stack + [name], i)
    ensures HasCaller(g, order + [name], stack, i)
  {
    var u :| order[i] in Succ(g, u) && u != order[i] && (u in order[i + 1..] || u in stack + [name]);
    assert (order + [name])[i + 1..] == order[i + 1..] + [name];
  }

  lemma InsertEnclosed(g: map<string, set<string>>, order: seq<string>, stack: seq<string>, name: string)
    requires Enclosed(g, order, stack + [name]) && Succ(g, name) <= Elems(order + (stack + [name]))
    ensures Enclosed(g, order + [name], stack)
  {
    assert Elems(order + (stack + [name])) == Elems((order + [name]) + stack);
  }

  lemma InsertKeeps(frames: map<string, nat>, g: map<string, set<string>>, root: string, stack: seq<string>,
                    name: string, memo: Memo, d: Deep)
    requires stack != [] && WalkState(frames, g, root, stack + [name], memo)
    requires StackOk(g, root, stack + [name])
    requires Balanced(frames, g, memo, name, memo.order, d)
    requires forall c :: c in Succ(g, name) ==> c in stack + [name] || c in memo.at
    ensures WalkState(frames, g, root, stack, Insert(memo, name, d))
  {
    var m := Insert(memo, name, d);
    var full := stack + [name];
    assert name in full;
    InsertBalanced(frames, g, name, memo, d);
    InsertCalleesDone(g, root, full, memo.order, name);
    InsertEnclosed(g, memo.order, stack, name);
    forall i | 0 <= i < |m.order| ensures HasCaller(g, m.order, stack, i) {
      if i < |memo.order| {
        InsertHasCaller(g, memo.order, stack, name, i);
      } else {
        assert Step(g, full, |stack| - 1);
        assert full[|stack| - 1] == stack[|stack| - 1];
      }
    }
    forall x | x in stack ensures x !in m.at {
      var k :| 0 <= k < |stack| && stack[k] == x;
      assert full[k] == x && full[|stack|] == name && x in full;
    }
  }

  lemma {:induction false} WalkKeeps(frames: map<string, nat>, g: map<string, set<string>>, root: string,
                                     name: string, stack: seq<string>, memo: Memo)
    requires stack != [] && StackOk(g, root, stack) && name in Succ(g, stack[|stack| - 1])
    requires WalkState(frames, g, root, stack, memo)
    ensures var (d, m) := Walk(frames, g, name, stack, memo);
            && WalkState(frames, g, root, stack, m) && Extends(memo, m)
            && (name in stack ==> d.bytes == 0)
            && (name !in stack ==> name in m.at && d == m.at[name])
    decreases Unvisited(g, stack), 1, 0
  {
    if name !in stack && name !in memo.at {
      var full := stack + [name];
      ExtendPath(g, stack, name);
      WalkStateDeeper(frames, g, root, stack, name, memo);
      var callees := SortedSet(Succ(g, name));
      ScanKeeps(frames, g, root, name, stack, callees, Deep(0, []), memo);
      var (deepest, m) := Scan(frames, g, name, stack, callees, Deep(0, []), memo);
      var d := Over(frames, name, deepest);
      assert Balanced(frames, g, m, name, m.order, d) by {
        ScanBalances(frames, g, name, callees, deepest, m);
      }
      InsertKeeps(frames, g, root, stack, name, m, d);
    }
  }

  lemma WalkStateDeeper(frames: map<string, nat>, g: map<string, set<string>>, root: string, stack: seq<string>,
                        name: string, memo: Memo)
    requires WalkState(frames, g, root, stack, memo) && name !in memo.at
    ensures WalkState(frames, g, root, stack + [name], memo)
  {
    forall i | 0 <= i < |memo.order| ensures HasCaller(g, memo.order, stack + [name], i) {
      assert HasCaller(g, memo.order, stack, i);
    }
  }

  // What the callee loop leaves behind is what `Balanced` asks of its caller.
  lemma ScanBalances(frames: map<string, nat>, g: map<string, set<string>>, name: string, callees: seq<string>,
                     deepest: Deep, m: Memo)
    requires KeysOk(m) && forall c :: c in callees <==> c in Succ(g, name)
    requires forall c :: c in callees && c in m.at ==> m.at[c].bytes <= deepest.bytes
    requires deepest == Deep(0, []) || exists c :: c in callees && c in m.at && deepest == m.at[c]
    ensures Balanced(frames, g, m, name, m.order, Over(frames, name, deepest))
  {
    if deepest == Deep(0, []) {
      assert [Charged(name, Own(frames, name))] + deepest.path == [Charged(name, Own(frames, name))];
    }
  }

  lemma {:induction false} ScanKeeps(frames: map<string, nat>, g: map<string, set<string>>, root: string, name: string,
                                     stack: seq<string>, rest: seq<string>, deepest: Deep, memo: Memo)
    requires name !in stack && StackOk(g, root, stack + [name])
    requires forall c :: c in rest ==> c in Succ(g, name)
    requires WalkState(frames, g, root, stack + [name], memo)
    ensures var (d, m) := Scan(frames, g, name, stack, rest, deepest, memo);
            && WalkState(frames, g, root, stack + [name], m) && Extends(memo, m)
            && (forall c :: c in rest ==> c in stack + [name] || c in m.at)
            && deepest.bytes <= d.bytes
            && (forall c :: c in rest && c in m.at ==> m.at[c].bytes <= d.bytes)
            && (d == deepest || exists c :: c in rest && c in m.at && d == m.at[c])
    decreases Unvisited(g, stack), 0, |rest|
  {
    if rest != [] {
      var full := stack + [name];
      assert rest == [rest[0]] + rest[1..];
      if rest[0] == name {
        ScanKeeps(frames, g, root, name, stack, rest[1..], deepest, memo);
      } else {
        assert rest[0] in rest;
        DeeperStack(g, stack, name);
        WalkKeeps(frames, g, root, rest[0], full, memo);
        var (sub, m1) := Walk(frames, g, rest[0], full, memo);
        var next := if sub.bytes > deepest.bytes then sub else deepest;
        ScanKeeps(frames, g, root, name, stack, rest[1..], next, m1);
      }
    }
  }

  // ----- What the walk returns -----

  ghost function FrameSum(frames: map<string, nat>, p: seq<string>): nat {
    if p == [] then 0 else (if p[0] in frames then frames[p[0]] else 0) + FrameSum(frames, p[1..])
  }

  function Names(path: seq<Entry>): seq<string> {
    seq(|path|, i requires 0 <= i < |path| => path[i].name)
  }

  ghost function Pos(order: seq<string>, x: string): (i: nat)
    requires x in order
    ensures i < |order| && order[i] == x
  {
    var i :| 0 <= i < |order| && order[i] == x;
    i
  }

  // A path every step of which calls a function finished earlier: no step was cut.
  ghost predicate Kept(g: map<string, set<string>>, order: seq<string>, p: seq<string>) {
    && IsPath(g, p)
    && (forall x :: x in p ==> x in order)
    && forall i :: 0 <= i < |p| - 1 ==> Pos(order, p[i + 1]) < Pos(order, p[i])
  }

  ghost predicate Completed(frames: map<string, nat>, g: map<string, set<string>>, root: string, memo: Memo) {
    && KeysOk(memo) && AllBalanced(frames, g, memo)
    && memo.order != [] && memo.order[|memo.order| - 1] == root
    && (forall i :: 0 <= i < |memo.order| ==> CalleesDone(g, root, memo.order, i))
    && (forall i :: 0 <= i < |memo.order| - 1 ==> HasCaller(g, memo.order, [], i))
    && Closed(g, Elems(memo.order))
  }

  lemma EnclosedClosed(g: map<string, set<string>>, order: seq<string>)
    requires Enclosed(g, order, [])
    ensures Closed(g, Elems(order))
  {
    assert order + [] == order;
  }

  lemma InsertRootCallees(frames: map<string, nat>, g: map<string, set<string>>, root: string, m: Memo)
    requires WalkState(frames, g, root, [root], m) && Succ(g, root) <= Elems(m.order + [root])
    ensures forall i :: 0 <= i <= |m.order| ==> CalleesDone(g, root, m.order + [root], i)
  {
    InsertCalleesDone(g, root, [root], m.order, root);
  }

  lemma InsertRootEnclosed(frames: map<string, nat>, g: map<string, set<string>>, root: string, m: Memo)
    requires WalkState(frames, g, root, [root], m) && Succ(g, root) <= Elems(m.order + [root])
    ensures Closed(g, Elems(m.order + [root]))
  {
    assert [] + [root] == [root];
    InsertEnclosed(g, m.order, [], root);
    EnclosedClosed(g, m.order + [root]);
  }

  lemma InsertRootCallers(frames: map<string, nat>, g: map<string, set<string>>, root: string, m: Memo)
    requires WalkState(frames, g, root, [root], m)
    ensures forall i :: 0 <= i < |m.order| ==> HasCaller(g, m.order + [root], [], i)
  {
    assert [] + [root] == [root];
    forall i | 0 <= i < |m.order| ensures HasCaller(g, m.order + [root], [], i) {
      InsertHasCaller(g, m.order, [], root, i);
    }
  }

  lemma InsertRoot(frames: map<string, nat>, g: map<string, set<string>>, root: string, m: Memo, d: Deep)
    requires WalkState(frames, g, root, [root], m)
    requires Balanced(frames, g, m, root, m.order, d)
    requires Succ(g, root) <= Elems(m.order + [root])
    ensures Completed(frames, g, root, Insert(m, root, d))
  {
    InsertBalanced(frames, g, root, m, d);
    InsertRootCallees(frames, g, root, m);
    InsertRootEnclosed(frames, g, root, m);
    InsertRootCallers(frames, g, root, m);
  }

  lemma WalkCompletes(frames: map<string, nat>, g: map<string, set<string>>, root: string)
    ensures Completed(frames, g, root, Finished(frames, g, root))
    ensures Finished(frames, g, root).at[root] == ChainBytes(frames, g, root)
  {
    var callees := SortedSet(Succ(g, root));
    assert [] + [root] == [root];
    assert WalkState(frames, g, root, [root], EMPTY_MEMO);
    ScanKeeps(frames, g, root, root, [], callees, Deep(0, []), EMPTY_MEMO);
    var (deepest, m) := Scan(frames, g, root, [], callees, Deep(0, []), EMPTY_MEMO);
    ScanBalances(frames, g, root, callees, deepest, m);
    InsertRoot(frames, g, root, m, Over(frames, root, deepest));
  }

  lemma PrependKept(g: map<string, set<string>>, order: seq<string>, x: string, p: seq<string>)
    requires Kept(g, order, p) && x in order && p[0] in Succ(g, x) && Pos(order, p[0]) < Pos(order, x)
    ensures Kept(g, order, [x] + p)
  {
    PrependPath(g, x, p);
    var q := [x] + p;
    forall i | 0 <= i < |q| - 1 ensures Pos(order, q[i + 1]) < Pos(order, q[i]) {
      if i > 0 { assert q[i + 1] == p[i] && q[i] == p[i - 1]; }
    }
  }

  lemma {:induction false} KeptDescends(g: map<string, set<string>>, order: seq<string>, p: seq<string>, i: nat, j: nat)
    requires Kept(g, order, p) && i < j < |p|
    ensures Pos(order, p[j]) < Pos(order, p[i])
    decreases j - i
  {
    if i + 1 < j { KeptDescends(g, order, p, i + 1, j); }
  }

  lemma KeptSimple(g: map<string, set<string>>, order: seq<string>, p: seq<string>)
    requires Kept(g, order, p)
    ensures Simple(p)
  {
    forall i, j | 0 <= i < j < |p| ensures p[i] != p[j] {
      KeptDescends(g, order, p, i, j);
    }
  }

  ghost predicate AllCharged(frames: map<string, nat>, path: seq<Entry>) {
    forall i :: 0 <= i < |path| ==> path[i] == Charged(path[i].name, Own(frames, path[i].name))
  }

  ghost predicate GenuinePath(frames: map<string, nat>, g: map<string, set<string>>, order: seq<string>, x: string,
                              d: Deep)
  {
    var p := Names(d.path);
    p != [] && p[0] == x && Kept(g, order, p) && AllCharged(frames, d.path) && FrameSum(frames, p) == d.bytes
  }

  lemma PosAt(order: seq<string>, i: nat)
    requires Simple(order) && i < |order|
    ensures Pos(order, order[i]) == i
  {
  }

  lemma OverGenuine(frames: map<string, nat>, g: map<string, set<string>>, order: seq<string>, x: string, c: string,
                    sub: Deep)
    requires GenuinePath(frames, g, order, c, sub)
    requires x in order && c in Succ(g, x) && c in order && Pos(order, c) < Pos(order, x)
    ensures GenuinePath(frames, g, order, x, Over(frames, x, sub))
  {
    var d := Over(frames, x, sub);
    var tail := Names(sub.path);
    assert Names(d.path) == [x] + tail;
    PrependKept(g, order, x, tail);
    assert Names(d.path)[1..] == tail;
  }

  // The reported path of every memo entry is a real call path, and its frames add up to the total.
  // A finished entry is a leaf or goes over an entry finished before it.
  lemma Unwound(frames: map<string, nat>, g: map<string, set<string>>, memo: Memo, i: nat) returns (below: Option<nat>)
    requires KeysOk(memo) && AllBalanced(frames, g, memo) && i < |memo.order|
    ensures var x := memo.order[i];
            match below
            case None => memo.at[x] == Deep(Own(frames, x), [Charged(x, Own(frames, x))])
            case Some(k) =>
              k < i && memo.order[k] in Succ(g, x) && memo.at[x] == Over(frames, x, memo.at[memo.order[k]])
  {
    var x := memo.order[i];
    var d := memo.at[x];
    var before := memo.order[..i];
    assert Balanced(frames, g, memo, x, before, d);
    if d == Deep(Own(frames, x), [Charged(x, Own(frames, x))]) {
      below := None;
    } else {
      var c :| c in Succ(g, x) && c in before && d == Over(frames, x, memo.at[c]);
      var k :| 0 <= k < i && memo.order[k] == c;
      below := Some(k);
    }
  }

  lemma {:induction false} PathGenuine(frames: map<string, nat>, g: map<string, set<string>>, memo: Memo, i: nat)
    requires KeysOk(memo) && AllBalanced(frames, g, memo) && i < |memo.order|
    ensures GenuinePath(frames, g, memo.order, memo.order[i], memo.at[memo.order[i]])
    decreases i
  {
    var x := memo.order[i];
    var below := Unwound(frames, g, memo, i);
    if below.None? {
      assert Names(memo.at[x].path) == [x];
    } else {
      var c := memo.order[below.value];
      PathGenuine(frames, g, memo, below.value);
      PosAt(memo.order, i);
      PosAt(memo.order, below.value);
      OverGenuine(frames, g, memo.order, x, c, memo.at[c]);
    }
  }

  // No uncut path costs more than the memo entry of its first function.
  // The rest of an uncut path is uncut, and was finished before its first function.
  lemma KeptTail(g: map<string, set<string>>, order: seq<string>, p: seq<string>)
    requires Simple(order) && Kept(g, order, p) && |p| > 1
    ensures Kept(g, order, p[1..]) && p[1] in Succ(g, p[0]) && p[1] in order[..Pos(order, p[0])]
  {
    var tail := p[1..];
    assert Step(g, p, 0) && tail == p[1..|p|];
    SubPath(g, p, 1, |p|);
    forall k | 0 <= k < |tail| - 1 ensures Pos(order, tail[k + 1]) < Pos(order, tail[k]) {
      assert tail[k + 1] == p[k + 2] && tail[k] == p[k + 1];
    }
  }

  lemma CalleeFits(frames: map<string, nat>, g: map<string, set<string>>, memo: Memo, x: string, c: string)
    requires KeysOk(memo) && AllBalanced(frames, g, memo) && x in memo.order
    requires c in Succ(g, x) && c in memo.order[..Pos(memo.order, x)]
    ensures Own(frames, x) + memo.at[c].bytes <= memo.at[x].bytes
  {
    var i := Pos(memo.order, x);
    assert Balanced(frames, g, memo, memo.order[i], memo.order[..i], memo.at[memo.order[i]]);
  }

  lemma {:induction false} KeptBounded(frames: map<string, nat>, g: map<string, set<string>>, memo: Memo,
                                       p: seq<string>)
    requires KeysOk(memo) && AllBalanced(frames, g, memo) && Kept(g, memo.order, p)
    ensures FrameSum(frames, p) <= memo.at[p[0]].bytes
    decreases |p|
  {
    if |p| > 1 {
      KeptTail(g, memo.order, p);
      KeptBounded(frames, g, memo, p[1..]);
      CalleeFits(frames, g, memo, p[0], p[1]);
    } else {
      var i := Pos(memo.order, p[0]);
      assert Balanced(frames, g, memo, memo.order[i], memo.order[..i], memo.at[memo.order[i]]);
      assert p[1..] == [];
    }
  }
}
