/** Finite directed graphs as successor maps, and the paths through them. A node
    without an entry has no successors. */
module Paths {

  function Succ<T>(g: map<T, set<T>>, x: T): set<T> {
    if x in g then g[x] else {}
  }

  ghost predicate Step<T>(g: map<T, set<T>>, p: seq<T>, i: int)
    requires 0 <= i < |p| - 1
  {
    p[i + 1] in Succ(g, p[i])
  }

  ghost predicate IsPath<T>(g: map<T, set<T>>, p: seq<T>) {
    p != [] && forall i :: 0 <= i < |p| - 1 ==> Step(g, p, i)
  }

  ghost predicate PathTo<T>(g: map<T, set<T>>, p: seq<T>, a: T, b: T) {
    IsPath(g, p) && p[0] == a && p[|p| - 1] == b
  }

  // No node is visited twice.
  ghost predicate Simple<T>(p: seq<T>) {
    forall i, j :: 0 <= i < j < |p| ==> p[i] != p[j]
  }

  ghost predicate Reachable<T(!new)>(g: map<T, set<T>>, a: T, b: T) {
    exists p :: PathTo(g, p, a, b)
  }

  function Elems<T>(s: seq<T>): set<T> {
    set x | x in s
  }

  lemma ElemsAppend<T>(s: seq<T>, x: T)
    ensures Elems(s + [x]) == Elems(s) + {x}
  {
  }

  lemma LastApart<T>(s: seq<T>)
    requires s != []
    ensures s == s[..|s| - 1] + [s[|s| - 1]]
  {
  }

  ghost predicate Closed<T>(g: map<T, set<T>>, s: set<T>) {
    forall x :: x in s ==> Succ(g, x) <= s
  }

  lemma ExtendPath<T>(g: map<T, set<T>>, p: seq<T>, x: T)
    requires IsPath(g, p) && x in Succ(g, p[|p| - 1])
    ensures IsPath(g, p + [x])
  {
    var q := p + [x];
    forall i | 0 <= i < |q| - 1 ensures Step(g, q, i) {
      if i < |p| - 1 { assert Step(g, p, i); }
    }
  }

  lemma PrependPath<T>(g: map<T, set<T>>, x: T, p: seq<T>)
    requires IsPath(g, p) && p[0] in Succ(g, x)
    ensures IsPath(g, [x] + p)
  {
    var q := [x] + p;
    forall i | 0 <= i < |q| - 1 ensures Step(g, q, i) {
      if i > 0 { assert Step(g, p, i - 1); }
    }
  }

  lemma SubPath<T>(g: map<T, set<T>>, p: seq<T>, lo: nat, hi: nat)
    requires IsPath(g, p) && lo < hi <= |p|
    ensures IsPath(g, p[lo..hi])
  {
    var q := p[lo..hi];
    forall i | 0 <= i < |q| - 1 ensures Step(g, q, i) {
      assert Step(g, p, lo + i);
    }
  }

  lemma ReachableSelf<T>(g: map<T, set<T>>, a: T)
    ensures PathTo(g, [a], a, a)
  {
  }

  // A path that starts in a closed set never leaves it.
  lemma {:induction false} ClosedContains<T>(g: map<T, set<T>>, s: set<T>, p: seq<T>)
    requires Closed(g, s) && IsPath(g, p) && p[0] in s
    ensures p[|p| - 1] in s
    decreases |p|
  {
    if |p| > 1 {
      assert Step(g, p, 0);
      SubPath(g, p, 1, |p|);
      assert p[1..] == p[1..|p|];
      ClosedContains(g, s, p[1..]);
    }
  }

  // Every route can be shortened to one that repeats no node.
  lemma {:induction false} SimplePath<T>(g: map<T, set<T>>, p: seq<T>) returns (q: seq<T>)
    requires IsPath(g, p)
    ensures PathTo(g, q, p[0], p[|p| - 1]) && Simple(q) && Elems(q) <= Elems(p)
    decreases |p|
  {
    if i, j :| 0 <= i < j < |p| && p[i] == p[j] {
      var r := p[..i] + p[j..];
      forall k | 0 <= k < |r| - 1 ensures Step(g, r, k) {
        if k < i - 1 { assert Step(g, p, k); }
        else if k == i - 1 { assert Step(g, p, k); assert r[k + 1] == p[i]; }
        else { assert Step(g, p, k - i + j); }
      }
      q := SimplePath(g, r);
    } else {
      q := p;
    }
  }

  lemma NothingLeft<T>(a: set<T>, b: set<T>)
    ensures a - b == {} <==> a <= b
  {
    if a - b == {} {
      forall x | x in a ensures x in b { assert x !in a - b; }
    }
  }
}
