/** The search for a fixed-domain length through a table of token aliases. It
    guards only against repeating a name on the current expansion path. */
module AliasSearch {
  import opened Paths
  import opened MentionGraph

  // `_fixed_domain_tokens`; `fixed` recognises the literal and named lengths.
  predicate FixedDomain(values: seq<string>, aliases: map<string, seq<string>>, fixed: string -> bool,
                        seen: set<string>)
    decreases aliases.Keys - seen, |values|
  {
    values != [] &&
    (fixed(values[0])
     || (values[0] in aliases && values[0] !in seen
         && FixedDomain(aliases[values[0]], aliases, fixed, seen + {values[0]}))
     || FixedDomain(values[1..], aliases, fixed, seen))
  }

  function AliasGraph(aliases: map<string, seq<string>>): map<string, set<string>> {
    map a | a in aliases :: Elems(aliases[a])
  }

  ghost predicate FixedReachable(values: seq<string>, aliases: map<string, seq<string>>, fixed: string -> bool) {
    exists t :: fixed(t) && FromRoots(AliasGraph(aliases), values, t)
  }

  lemma {:induction false} FoundIsReachable(values: seq<string>, aliases: map<string, seq<string>>,
                                            fixed: string -> bool, seen: set<string>)
    requires FixedDomain(values, aliases, fixed, seen)
    ensures FixedReachable(values, aliases, fixed)
    decreases aliases.Keys - seen, |values|
  {
    var g, v := AliasGraph(aliases), values[0];
    assert v in values;
    if fixed(v) {
      RootFromRoots(g, values, v);
    } else if v in aliases && v !in seen && FixedDomain(aliases[v], aliases, fixed, seen + {v}) {
      FoundIsReachable(aliases[v], aliases, fixed, seen + {v});
      var t :| fixed(t) && FromRoots(g, aliases[v], t);
      var r :| r in aliases[v] && Reachable(g, r, t);
      var p :| PathTo(g, p, r, t);
      PrependPath(g, v, p);
      assert PathTo(g, [v] + p, v, t);
    } else {
      FoundIsReachable(values[1..], aliases, fixed, seen);
      var t :| fixed(t) && FromRoots(g, values[1..], t);
      var r :| r in values[1..] && Reachable(g, r, t);
      assert r in values;
    }
  }

  // One value that is fixed, or whose expansion is found fixed, decides the whole list.
  lemma {:induction false} AnyValueDecides(values: seq<string>, aliases: map<string, seq<string>>,
                                           fixed: string -> bool, seen: set<string>, v: string)
    requires v in values
    requires fixed(v) || (v in aliases && v !in seen && FixedDomain(aliases[v], aliases, fixed, seen + {v}))
    ensures FixedDomain(values, aliases, fixed, seen)
    decreases |values|
  {
    if v != values[0] {
      AnyValueDecides(values[1..], aliases, fixed, seen, v);
    }
  }

  // A non-repeating expansion path that avoids the guarded names is followed to its end.
  lemma {:induction false} PathIsFollowed(values: seq<string>, aliases: map<string, seq<string>>, fixed: string -> bool,
                                          seen: set<string>, p: seq<string>)
    requires IsPath(AliasGraph(aliases), p) && Simple(p) && p[0] in values && fixed(p[|p| - 1])
    requires forall i :: 0 <= i < |p| - 1 ==> p[i] !in seen
    ensures FixedDomain(values, aliases, fixed, seen)
    decreases |p|
  {
    if |p| > 1 {
      var v, q := p[0], p[1..|p|];
      assert Step(AliasGraph(aliases), p, 0);
      SubPath(AliasGraph(aliases), p, 1, |p|);
      assert forall i :: 0 <= i < |q| ==> q[i] == p[i + 1];
      PathIsFollowed(aliases[v], aliases, fixed, seen + {v}, q);
      AnyValueDecides(values, aliases, fixed, seen, v);
    } else {
      AnyValueDecides(values, aliases, fixed, seen, p[0]);
    }
  }

  // The guarded search terminates on cyclic tables and finds exactly what is reachable.
  lemma FixedDomainIffReachable(values: seq<string>, aliases: map<string, seq<string>>, fixed: string -> bool)
    ensures FixedDomain(values, aliases, fixed, {}) <==> FixedReachable(values, aliases, fixed)
  {
    if FixedDomain(values, aliases, fixed, {}) {
      FoundIsReachable(values, aliases, fixed, {});
    }
    if FixedReachable(values, aliases, fixed) {
      var g := AliasGraph(aliases);
      var t :| fixed(t) && FromRoots(g, values, t);
      var r :| r in values && Reachable(g, r, t);
      var p :| PathTo(g, p, r, t);
      var q := SimplePath(g, p);
      PathIsFollowed(values, aliases, fixed, {}, q);
    }
  }
}
