/** Names in code-point order, and what `sorted` returns for a set of names or
    for a list of keyed records. */
module Orders {

  // Code-point lexicographic order: a proper prefix comes first.
  predicate NameLe(a: string, b: string) {
    a == [] || (b != [] && (a[0] < b[0] || (a[0] == b[0] && NameLe(a[1..], b[1..]))))
  }

  lemma {:induction false} NameLeTotal(a: string, b: string)
    ensures NameLe(a, b) || NameLe(b, a)
  {
    if a != [] && b != [] && a[0] == b[0] {
      NameLeTotal(a[1..], b[1..]);
    }
  }

  lemma {:induction false} NameLeAntisymmetric(a: string, b: string)
    requires NameLe(a, b) && NameLe(b, a)
    ensures a == b
  {
    if a != [] && b != [] {
      NameLeAntisymmetric(a[1..], b[1..]);
      assert a == [a[0]] + a[1..] == [b[0]] + b[1..];
    }
  }

  lemma {:induction false} NameLeTransitive(a: string, b: string, c: string)
    requires NameLe(a, b) && NameLe(b, c)
    ensures NameLe(a, c)
  {
    if a != [] && a[0] == b[0] && b[0] == c[0] {
      NameLeTransitive(a[1..], b[1..], c[1..]);
    }
  }

  lemma {:induction false} PrefixNameLe(a: string, b: string)
    requires a <= b
    ensures NameLe(a, b)
  {
    if a != [] {
      PrefixNameLe(a[1..], b[1..]);
    }
  }

  // The first difference decides, by code point.
  ghost predicate Differs(a: string, b: string, k: nat) {
    k < |a| && k < |b| && a[..k] == b[..k] && a[k] < b[k]
  }

  lemma {:induction false} NameLeIff(a: string, b: string)
    ensures NameLe(a, b) <==> a <= b || exists k: nat :: Differs(a, b, k)
  {
    if a != [] && b != [] {
      if a[0] == b[0] {
        NameLeIff(a[1..], b[1..]);
        assert a == [a[0]] + a[1..] && b == [b[0]] + b[1..];
        if k: nat :| Differs(a[1..], b[1..], k) {
          assert a[..k + 1] == [a[0]] + a[1..][..k] && b[..k + 1] == [b[0]] + b[1..][..k];
          assert Differs(a, b, k + 1);
        }
        if k: nat :| Differs(a, b, k) {
          assert a[1..][..k - 1] == a[..k][1..] && b[1..][..k - 1] == b[..k][1..];
          assert Differs(a[1..], b[1..], k - 1);
        }
      } else if a[0] < b[0] {
        assert a[..0] == b[..0];
        assert Differs(a, b, 0);
      } else {
        forall k: nat ensures !Differs(a, b, k) {
          if k > 0 && k < |a| && k < |b| { assert a[..k][0] != b[..k][0]; }
        }
      }
    }
  }

  predicate IsLeast(m: string, s: set<string>) {
    m in s && forall x :: x in s ==> NameLe(m, x)
  }

  lemma {:induction false} LeastExists(s: set<string>)
    requires s != {}
    ensures exists m :: IsLeast(m, s)
    decreases |s|
  {
    var x :| x in s;
    NameLeTotal(x, x);
    var rest := s - {x};
    if rest == {} {
      assert s == {x};
      assert IsLeast(x, s);
    } else {
      LeastExists(rest);
      var m :| IsLeast(m, rest);
      NameLeTotal(x, m);
      if NameLe(x, m) {
        forall y | y in s ensures NameLe(x, y) {
          if y != x { NameLeTransitive(x, m, y); }
        }
        assert IsLeast(x, s);
      } else {
        assert IsLeast(m, s);
      }
    }
  }

  lemma LeastUnique(s: set<string>)
    ensures forall m, k :: IsLeast(m, s) && IsLeast(k, s) ==> m == k
  {
    forall m, k | IsLeast(m, s) && IsLeast(k, s) ensures m == k {
      NameLeAntisymmetric(m, k);
    }
  }

  ghost predicate Ascending(names: seq<string>) {
    forall i, j :: 0 <= i < j < |names| ==> NameLe(names[i], names[j]) && names[i] != names[j]
  }

  // `sorted(s)` of a set of names.
  function SortedSet(s: set<string>): (names: seq<string>)
    ensures forall x :: x in names <==> x in s
    decreases |s|
  {
    if s == {} then [] else
      LeastExists(s);
      LeastUnique(s);
      var m :| m in s && IsLeast(m, s);
      [m] + SortedSet(s - {m})
  }

  lemma {:induction false} SortedSetAscending(s: set<string>)
    ensures Ascending(SortedSet(s))
    decreases |s|
  {
    if s != {} {
      LeastExists(s);
      LeastUnique(s);
      var m :| m in s && IsLeast(m, s);
      SortedSetAscending(s - {m});
      assert SortedSet(s) == [m] + SortedSet(s - {m});
    }
  }

  // Two ascending lists with the same members are the same list.
  lemma {:induction false} AscendingUnique(a: seq<string>, b: seq<string>)
    requires Ascending(a) && Ascending(b)
    requires forall x :: x in a <==> x in b
    ensures a == b
  {
    if b != [] {
      assert b[0] in b;
    }
    if a != [] {
      assert a[0] in b && b != [];
      assert b[0] in a;
      var i :| 0 <= i < |a| && a[i] == b[0];
      var j :| 0 <= j < |b| && b[j] == a[0];
      if i != 0 && j != 0 { NameLeAntisymmetric(a[0], b[0]); }
      assert a[0] == b[0];
      forall x ensures x in a[1..] <==> x in b[1..] {
        if x in a[1..] { assert x in b && x != a[0]; }
        if x in b[1..] { assert x in a && x != b[0]; }
      }
      AscendingUnique(a[1..], b[1..]);
      assert a == [a[0]] + a[1..] && b == [b[0]] + b[1..];
    }
  }
}
