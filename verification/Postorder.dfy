/** Depth-first postorder: each node after the successors first reached through it,
    successors taken in name order. */
module Postorder {
  import opened Orders

  ghost function Unseen(g: map<string, set<string>>, seen: set<string>): nat {
    |g.Keys - seen|
  }

  lemma MoreSeen(g: map<string, set<string>>, seen: set<string>, more: set<string>)
    requires seen <= more
    ensures Unseen(g, more) <= Unseen(g, seen)
  {
    var a, b := g.Keys - more, g.Keys - seen;
    assert a <= b;
    assert b == a + (b - a);
  }

  lemma OneMoreSeen(g: map<string, set<string>>, seen: set<string>, x: string)
    requires x in g && x !in seen
    ensures Unseen(g, seen + {x}) < Unseen(g, seen)
  {
    assert g.Keys - (seen + {x}) == (g.Keys - seen) - {x};
    assert x in g.Keys - seen;
  }

  // The nodes met so far, and the finished ones in order.
  function Visit(g: map<string, set<string>>, x: string, seen: set<string>,
                 order: seq<string>): (r: (set<string>, seq<string>))
    ensures seen <= r.0
    decreases Unseen(g, seen), 0, 1
  {
    if x in seen then (seen, order)
    else if x !in g then (seen + {x}, order + [x])
    else
      OneMoreSeen(g, seen, x);
      var (seen', order') := VisitAll(g, SortedSet(g[x]), seen + {x}, order);
      (seen', order' + [x])
  }

  function VisitAll(g: map<string, set<string>>, xs: seq<string>, seen: set<string>,
                    order: seq<string>): (r: (set<string>, seq<string>))
    ensures seen <= r.0
    decreases Unseen(g, seen), |xs|, 0
  {
    if xs == [] then (seen, order)
    else
      var (seen', order') := Visit(g, xs[0], seen, order);
      MoreSeen(g, seen, seen');
      VisitAll(g, xs[1..], seen', order')
  }

  function From(g: map<string, set<string>>, root: string): seq<string> {
    Visit(g, root, {}, []).1
  }
}
