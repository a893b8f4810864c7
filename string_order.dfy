/** Python's ordering of strings (lexicographic by code point) and sorted() on a set of
    strings: the ascending list holding each member once. */
module StringOrder {

  type Name = string

  predicate NameLe(s: Name, t: Name)
    decreases |s|
  {
    s == [] || (t != [] && (s[0] < t[0] || (s[0] == t[0] && NameLe(s[1..], t[1..]))))
  }

  predicate NameLt(s: Name, t: Name)
  {
    NameLe(s, t) && s != t
  }

  lemma {:induction false} NameLeReflexive(s: Name)
    ensures NameLe(s, s)
    decreases |s|
  {
    if s != [] {
      NameLeReflexive(s[1..]);
    }
  }

  lemma {:induction false} NameLeTotal(s: Name, t: Name)
    ensures NameLe(s, t) || NameLe(t, s)
    decreases |s|
  {
    if s != [] && t != [] && s[0] == t[0] {
      NameLeTotal(s[1..], t[1..]);
    }
  }

  lemma {:induction false} NameLeAntisymmetric(s: Name, t: Name)
    requires NameLe(s, t) && NameLe(t, s)
    ensures s == t
    decreases |s|
  {
    if s != [] {
      NameLeAntisymmetric(s[1..], t[1..]);
      assert s == [s[0]] + s[1..] && t == [t[0]] + t[1..];
    }
  }

  lemma {:induction false} NameLeTransitive(s: Name, t: Name, u: Name)
    requires NameLe(s, t) && NameLe(t, u)
    ensures NameLe(s, u)
    decreases |s|
  {
    if s != [] && s[0] == t[0] && t[0] == u[0] {
      NameLeTransitive(s[1..], t[1..], u[1..]);
    }
  }

  // ---- sorted() on a set of strings ----

  predicate Increasing(names: seq<Name>)
  {
    forall i, j :: 0 <= i < j < |names| ==> NameLt(names[i], names[j])
  }

  /** A name below every entry of an ascending list can go in front. */
  lemma PrependIncreasing(h: Name, rest: seq<Name>)
    requires Increasing(rest) && forall y :: y in multiset(rest) ==> NameLt(h, y)
    ensures Increasing([h] + rest)
  {
    forall i, j | 0 <= i < j < |[h] + rest| ensures NameLt(([h] + rest)[i], ([h] + rest)[j]) {
      if i == 0 {
        assert ([h] + rest)[j] == rest[j - 1];
        assert rest[j - 1] in multiset(rest);
      } else {
        assert ([h] + rest)[i] == rest[i - 1] && ([h] + rest)[j] == rest[j - 1];
      }
    }
  }

  lemma InsertFront(names: seq<Name>, x: Name)
    requires Increasing(names) && names != [] && x !in names && NameLe(x, names[0])
    ensures Increasing([x] + names)
  {
    forall y | y in multiset(names) ensures NameLt(x, y) {
      HeadIsLeast(names, y);
      NameLeTransitive(x, names[0], y);
    }
    PrependIncreasing(x, names);
  }

  lemma InsertBehind(names: seq<Name>, x: Name, rest: seq<Name>)
    requires Increasing(names) && names != [] && x !in names && !NameLe(x, names[0])
    requires Increasing(rest) && multiset(rest) == multiset(names[1..]) + multiset{x}
    ensures Increasing([names[0]] + rest) && multiset([names[0]] + rest) == multiset(names) + multiset{x}
  {
    NameLeTotal(x, names[0]);
    forall y | y in multiset(rest) ensures NameLt(names[0], y) {
      if y != x {
        assert y in multiset(names[1..]);
        var m :| 0 <= m < |names[1..]| && names[1..][m] == y;
        assert NameLt(names[0], names[m + 1]);
      }
    }
    PrependIncreasing(names[0], rest);
    assert names == [names[0]] + names[1..];
  }

  /** One step of sorted(): x placed before the first name it does not follow. */
  function Insert(names: seq<Name>, x: Name): (r: seq<Name>)
    requires Increasing(names) && x !in names
    ensures Increasing(r) && multiset(r) == multiset(names) + multiset{x}
  {
    if names == [] then [x]
    else if NameLe(x, names[0]) then
      InsertFront(names, x);
      [x] + names
    else
      IncreasingTail(names);
      var rest := Insert(names[1..], x);
      InsertBehind(names, x, rest);
      [names[0]] + rest
  }

  /** Every non-empty set of names has a least member. */
  lemma {:induction false} Least(s: set<Name>) returns (m: Name)
    requires s != {}
    ensures m in s && forall y :: y in s ==> NameLe(m, y)
    decreases |s|
  {
    var x :| x in s;
    NameLeReflexive(x);
    if s == {x} {
      return x;
    }
    var m' := Least(s - {x});
    NameLeTotal(x, m');
    if NameLe(x, m') {
      forall y | y in s - {x} ensures NameLe(x, y) {
        NameLeTransitive(x, m', y);
      }
      return x;
    }
    return m';
  }

  lemma LeastExists(s: set<Name>)
    requires s != {}
    ensures exists m :: m in s && forall y :: y in s ==> NameLe(m, y)
  {
    var m := Least(s);
  }

  /** The ascending listing of a set: its least member, then the listing of the rest. */
  ghost function Sorted(s: set<Name>): (r: seq<Name>)
    ensures Increasing(r) && multiset(r) == multiset(s)
    ensures forall n :: n in r <==> n in s
    decreases |s|
  {
    if s == {} then []
    else
      LeastExists(s);
      var m :| m in s && forall y :: y in s ==> NameLe(m, y);
      var rest := Sorted(s - {m});
      LeastInFront(s, m, rest);
      [m] + rest
  }

  /** The least member of a set in front of an ascending listing of the others lists the set. */
  lemma LeastInFront(s: set<Name>, m: Name, rest: seq<Name>)
    requires m in s && forall y :: y in s ==> NameLe(m, y)
    requires Increasing(rest) && multiset(rest) == multiset(s - {m})
    ensures Increasing([m] + rest) && multiset([m] + rest) == multiset(s)
    ensures forall n :: n in [m] + rest <==> n in s
  {
    forall y | y in multiset(rest) ensures NameLt(m, y) {
      assert y in s - {m};
    }
    PrependIncreasing(m, rest);
    ConsMultiset(s, m, rest);
  }

  lemma ConsMultiset(s: set<Name>, m: Name, rest: seq<Name>)
    requires m in s && multiset(rest) == multiset(s - {m})
    ensures multiset([m] + rest) == multiset(s)
    ensures forall n :: n in [m] + rest <==> n in s
  {
    assert multiset([m] + rest) == multiset{m} + multiset(rest);
    assert multiset(s) == multiset(s - {m}) + multiset{m};
    forall n ensures n in [m] + rest <==> n in s {
      assert n in [m] + rest <==> n in multiset([m] + rest);
    }
  }

  /** sorted() on a set: the names in strictly ascending order, each member once. */
  method SortNames(s: set<Name>) returns (names: seq<Name>)
    ensures Increasing(names) && multiset(names) == multiset(s)
    ensures names == Sorted(s)
  {
    names := [];
    var done: set<Name> := {};
    var todo := s;
    while todo != {}
      invariant todo <= s && done == s - todo
      invariant Increasing(names) && multiset(names) == multiset(done)
      decreases |todo|
    {
      var name :| name in todo;
      assert name !in multiset(names);
      names := Insert(names, name);
      assert multiset(done + {name}) == multiset(done) + multiset{name};
      done := done + {name};
      todo := todo - {name};
    }
    assert done == s;
    IncreasingUnique(names, Sorted(s));
  }

  /** The head of an ascending list is below every later entry. */
  lemma HeadIsLeast(a: seq<Name>, n: Name)
    requires Increasing(a) && a != [] && n in multiset(a)
    ensures NameLe(a[0], n)
  {
    NameLeReflexive(a[0]);
    if n != a[0] {
      var m :| 0 <= m < |a| && a[m] == n;
      assert NameLt(a[0], a[m]);
    }
  }

  lemma IncreasingTail(a: seq<Name>)
    requires Increasing(a) && a != []
    ensures Increasing(a[1..]) && multiset(a[1..]) == multiset(a) - multiset{a[0]}
  {
    assert a == [a[0]] + a[1..];
  }

  lemma HeadsEqual(a: seq<Name>, b: seq<Name>)
    requires Increasing(a) && Increasing(b) && multiset(a) == multiset(b) && a != []
    ensures b != [] && a[0] == b[0]
  {
    assert a[0] in multiset(b);
    assert b != [];
    assert b[0] in multiset(a);
    HeadIsLeast(a, b[0]);
    HeadIsLeast(b, a[0]);
    NameLeAntisymmetric(a[0], b[0]);
  }

  /** The ascending listing of a set is unique, so the password does not depend on the order
      in which the set is walked. */
  lemma {:induction false} IncreasingUnique(a: seq<Name>, b: seq<Name>)
    requires Increasing(a) && Increasing(b) && multiset(a) == multiset(b)
    ensures a == b
    decreases |a|
  {
    if a != [] {
      HeadsEqual(a, b);
      IncreasingTail(a);
      IncreasingTail(b);
      IncreasingUnique(a[1..], b[1..]);
      assert a == [a[0]] + a[1..] && b == [b[0]] + b[1..];
    }
  }
}
