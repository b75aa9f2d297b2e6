/** Sorting records by a name they carry, keeping the order of equal names. */
module Sorting {
  import opened Orders

  function InsertBy<T>(key: T -> string, r: T, sorted: seq<T>): seq<T> {
    if sorted == [] || NameLe(key(r), key(sorted[0])) then [r] + sorted
    else [sorted[0]] + InsertBy(key, r, sorted[1..])
  }

  function SortBy<T>(key: T -> string, rs: seq<T>): seq<T> {
    if rs == [] then [] else InsertBy(key, rs[0], SortBy(key, rs[1..]))
  }

  ghost predicate SortedBy<T>(key: T -> string, rs: seq<T>) {
    forall i, j :: 0 <= i < j < |rs| ==> NameLe(key(rs[i]), key(rs[j]))
  }

  lemma {:induction false} InsertKeeps<T>(key: T -> string, r: T, sorted: seq<T>)
    ensures multiset(InsertBy(key, r, sorted)) == multiset(sorted) + multiset{r}
    ensures SortedBy(key, sorted) ==> SortedBy(key, InsertBy(key, r, sorted))
    decreases |sorted|
  {
    if sorted != [] {
      var head, rest := sorted[0], sorted[1..];
      assert sorted == [head] + rest;
      if NameLe(key(r), key(head)) {
        if SortedBy(key, sorted) {
          forall k | 0 <= k < |sorted| ensures NameLe(key(r), key(sorted[k])) {
            if k > 0 { NameLeTransitive(key(r), key(head), key(sorted[k])); }
          }
        }
      } else {
        InsertKeeps(key, r, rest);
        var tail := InsertBy(key, r, rest);
        if SortedBy(key, sorted) {
          NameLeTotal(key(r), key(head));
          forall k | 0 <= k < |tail| ensures NameLe(key(head), key(tail[k])) {
            assert tail[k] in multiset(tail);
            if tail[k] != r { assert tail[k] in rest; }
          }
        }
      }
    }
  }

  lemma {:induction false} SortSorts<T>(key: T -> string, rs: seq<T>)
    ensures multiset(SortBy(key, rs)) == multiset(rs) && SortedBy(key, SortBy(key, rs))
    decreases |rs|
  {
    if rs != [] {
      SortSorts(key, rs[1..]);
      InsertKeeps(key, rs[0], SortBy(key, rs[1..]));
      assert rs == [rs[0]] + rs[1..];
    }
  }

  // No two records share a name without being the same record.
  ghost predicate Consistent<T(!new)>(key: T -> string, rs: seq<T>) {
    forall a, b :: a in rs && b in rs && key(a) == key(b) ==> a == b
  }

  lemma HeadIsLeast<T>(key: T -> string, a: seq<T>, r: T)
    requires SortedBy(key, a) && r in multiset(a)
    ensures NameLe(key(a[0]), key(r))
  {
    var i :| 0 <= i < |a| && a[i] == r;
    NameLeTotal(key(r), key(r));
  }

  lemma HeadsEqual<T(!new)>(key: T -> string, a: seq<T>, b: seq<T>)
    requires SortedBy(key, a) && SortedBy(key, b) && multiset(a) == multiset(b) && Consistent(key, a) && a != []
      && b != []
    ensures a[0] == b[0]
  {
    assert a[0] in multiset(a) && b[0] in multiset(b);
    HeadIsLeast(key, a, b[0]);
    HeadIsLeast(key, b, a[0]);
    NameLeAntisymmetric(key(a[0]), key(b[0]));
  }

  lemma TailMultiset<T>(a: seq<T>)
    requires a != []
    ensures multiset(a[1..]) == multiset(a) - multiset{a[0]}
  {
    assert a == [a[0]] + a[1..];
  }

  lemma {:induction false} SortedUnique<T(!new)>(key: T -> string, a: seq<T>, b: seq<T>)
    requires SortedBy(key, a) && SortedBy(key, b) && multiset(a) == multiset(b) && Consistent(key, a)
    ensures a == b
    decreases |a|
  {
    assert |a| == |multiset(a)| == |multiset(b)| == |b|;
    if a != [] {
      HeadsEqual(key, a, b);
      TailMultiset(a);
      TailMultiset(b);
      SortedUnique(key, a[1..], b[1..]);
      assert a == [a[0]] + a[1..] && b == [b[0]] + b[1..];
    }
  }

  function Keyed<T>(key: T -> string, rs: seq<T>, name: string): seq<T> {
    if rs == [] then [] else (if key(rs[0]) == name then [rs[0]] else []) + Keyed(key, rs[1..], name)
  }

  lemma {:induction false} InsertStable<T>(key: T -> string, r: T, sorted: seq<T>, name: string)
    ensures Keyed(key, InsertBy(key, r, sorted), name)
      == (if key(r) == name then [r] else []) + Keyed(key, sorted, name)
    decreases |sorted|
  {
    var out := InsertBy(key, r, sorted);
    if sorted == [] || NameLe(key(r), key(sorted[0])) {
      assert out[1..] == sorted;
    } else {
      InsertStable(key, r, sorted[1..], name);
      assert out[1..] == InsertBy(key, r, sorted[1..]);
      NameLeTotal(key(r), key(r));
    }
  }

  lemma {:induction false} SortStable<T>(key: T -> string, rs: seq<T>, name: string)
    ensures Keyed(key, SortBy(key, rs), name) == Keyed(key, rs, name)
    decreases |rs|
  {
    if rs != [] {
      SortStable(key, rs[1..], name);
      InsertStable(key, rs[0], SortBy(key, rs[1..]), name);
    }
  }

  // Reordering never changes the sorted list.
  ghost predicate OrderIrrelevant<T(!new)>(key: T -> string, rs: seq<T>) {
    forall other :: multiset(other) == multiset(rs) ==> SortBy(key, other) == SortBy(key, rs)
  }

  lemma {:induction false} FirstKeyed<T>(key: T -> string, rs: seq<T>, r: T)
    requires r in rs
    ensures Keyed(key, rs, key(r)) != [] && Keyed(key, rs, key(r))[0] in rs
    decreases |rs|
  {
    if key(rs[0]) != key(r) { FirstKeyed(key, rs[1..], r); }
  }

  // Thread order is irrelevant exactly when no name carries two different outcomes.
  lemma OrderIrrelevantIffConsistent<T(!new)>(key: T -> string, rs: seq<T>)
    ensures OrderIrrelevant(key, rs) <==> Consistent(key, rs)
  {
    if Consistent(key, rs) {
      forall other | multiset(other) == multiset(rs) ensures SortBy(key, other) == SortBy(key, rs) {
        SortSorts(key, rs);
        SortSorts(key, other);
        forall a, b | a in SortBy(key, rs) && b in SortBy(key, rs) && key(a) == key(b) ensures a == b {
          assert a in multiset(rs) && b in multiset(rs);
        }
        SortedUnique(key, SortBy(key, rs), SortBy(key, other));
      }
    } else {
      var a, b :| a in rs && b in rs && key(a) == key(b) && a != b;
      FirstKeyed(key, rs, a);
      var first := Keyed(key, rs, key(a))[0];
      OtherFirst(key, rs, if first == a then b else a);
    }
  }

  lemma MoveToFront<T>(rs: seq<T>, k: nat)
    requires k < |rs|
    ensures multiset([rs[k]] + (rs[..k] + rs[k + 1..])) == multiset(rs)
  {
    assert rs == rs[..k] + ([rs[k]] + rs[k + 1..]);
  }

  // Moving a record to the front makes it the first of its name in the sorted list.
  lemma OtherFirst<T(!new)>(key: T -> string, rs: seq<T>, r: T)
    requires r in rs && Keyed(key, rs, key(r)) != [] && Keyed(key, rs, key(r))[0] != r
    ensures !OrderIrrelevant(key, rs)
  {
    var k :| 0 <= k < |rs| && rs[k] == r;
    var rest := rs[..k] + rs[k + 1..];
    MoveToFront(rs, k);
    SortStable(key, rs, key(r));
    SortStable(key, [r] + rest, key(r));
    assert Keyed(key, [r] + rest, key(r)) == [r] + Keyed(key, rest, key(r)) by { assert ([r] + rest)[1..] == rest; }
  }
}
