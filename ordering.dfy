/** The order `Array.prototype.sort()` puts strings in when it is given no
    comparator: code unit by code unit, a proper prefix first. `SortNames`
    produces that order; its contract says the result is sorted and is a
    permutation of the input, which fixes the result uniquely. */
module NameOrder {

  /** Strictly before in the default string order. */
  predicate Before(a: string, b: string)
    decreases |a|
  {
    if a == [] then b != []
    else if b == [] then false
    else if a[0] != b[0] then a[0] < b[0]
    else Before(a[1..], b[1..])
  }

  predicate AtMost(a: string, b: string) {
    a == b || Before(a, b)
  }

  lemma {:induction false} BeforeIrreflexive(a: string)
    ensures !Before(a, a)
    decreases |a|
  {
    if a != [] {
      BeforeIrreflexive(a[1..]);
    }
  }

  lemma {:induction false} BeforeTotal(a: string, b: string)
    ensures Before(a, b) || a == b || Before(b, a)
    decreases |a|
  {
    if a != [] && b != [] && a[0] == b[0] {
      BeforeTotal(a[1..], b[1..]);
      if a[1..] == b[1..] {
        assert a == [a[0]] + a[1..] && b == [b[0]] + b[1..];
      }
    }
  }

  lemma {:induction false} BeforeAsymmetric(a: string, b: string)
    requires Before(a, b)
    ensures !Before(b, a)
    decreases |a|
  {
    if a != [] && b != [] && a[0] == b[0] {
      BeforeAsymmetric(a[1..], b[1..]);
    }
  }

  lemma {:induction false} BeforeTransitive(a: string, b: string, c: string)
    requires Before(a, b) && Before(b, c)
    ensures Before(a, c)
    decreases |a|
  {
    if a != [] && a[0] == b[0] && b[0] == c[0] {
      BeforeTransitive(a[1..], b[1..], c[1..]);
    }
  }

  lemma AtMostTransitive(a: string, b: string, c: string)
    requires AtMost(a, b) && AtMost(b, c)
    ensures AtMost(a, c)
  {
    if a != b && b != c {
      BeforeTransitive(a, b, c);
    }
  }

  predicate Sorted(s: seq<string>) {
    forall i, j :: 0 <= i < j < |s| ==> AtMost(s[i], s[j])
  }

  /** Place `x` in front of the first element it does not come after. */
  function Insert(x: string, s: seq<string>): (r: seq<string>)
    requires Sorted(s)
    ensures Sorted(r)
    ensures multiset(r) == multiset(s) + multiset{x}
    decreases |s|
  {
    if s == [] then [x]
    else if AtMost(x, s[0]) then
      InsertFront(x, s);
      [x] + s
    else
      BeforeTotal(x, s[0]);
      var rest := Insert(x, s[1..]);
      assert s == [s[0]] + s[1..];
      InsertBehind(s[0], x, s[1..], rest);
      [s[0]] + rest
  }

  lemma InsertFront(x: string, s: seq<string>)
    requires Sorted(s) && s != [] && AtMost(x, s[0])
    ensures Sorted([x] + s)
  {
    var r := [x] + s;
    forall i, j | 0 <= i < j < |r| ensures AtMost(r[i], r[j]) {
      assert r[j] == s[j - 1];
      if i == 0 {
        if j > 1 {
          AtMostTransitive(x, s[0], s[j - 1]);
        }
      } else {
        assert r[i] == s[i - 1];
      }
    }
  }

  lemma InsertBehind(h: string, x: string, tail: seq<string>, rest: seq<string>)
    requires Sorted([h] + tail) && Before(h, x)
    requires Sorted(rest) && multiset(rest) == multiset(tail) + multiset{x}
    ensures Sorted([h] + rest)
  {
    var r := [h] + rest;
    forall i, j | 0 <= i < j < |r| ensures AtMost(r[i], r[j]) {
      var y := rest[j - 1];
      assert r[j] == y;
      if i == 0 {
        assert y in multiset(rest);
        if y != x {
          assert y in multiset(tail);
          var k :| 0 <= k < |tail| && tail[k] == y;
          assert ([h] + tail)[0] == h && ([h] + tail)[k + 1] == y;
        }
      } else {
        assert r[i] == rest[i - 1];
      }
    }
  }

  /** The default `sort()` of a list of strings. */
  function SortNames(s: seq<string>): (r: seq<string>)
    ensures Sorted(r)
    ensures multiset(r) == multiset(s)
  {
    if s == [] then []
    else
      assert s == [s[0]] + s[1..];
      Insert(s[0], SortNames(s[1..]))
  }

  /** A sorted list starts with its least element and ends with its greatest. */
  lemma SortedEnds(s: seq<string>)
    requires Sorted(s) && s != []
    ensures forall x :: x in s ==> AtMost(s[0], x) && AtMost(x, s[|s| - 1])
  {
  }

  /** Two sorted arrangements of the same names are the same list. */
  lemma {:induction false} SortedUnique(r: seq<string>, t: seq<string>)
    requires Sorted(r) && Sorted(t) && multiset(r) == multiset(t)
    ensures r == t
    decreases |r|
  {
    if r != [] {
      assert |t| == |multiset(t)| == |multiset(r)| == |r|;
      SortedHeads(r, t);
      SortedTail(r);
      SortedTail(t);
      assert multiset(r[1..]) == multiset(t[1..]) by {
        assert r == [r[0]] + r[1..] && t == [t[0]] + t[1..];
        assert multiset(r[1..]) == multiset(r) - multiset{r[0]};
        assert multiset(t[1..]) == multiset(t) - multiset{t[0]};
      }
      SortedUnique(r[1..], t[1..]);
      assert r == [r[0]] + r[1..] && t == [t[0]] + t[1..];
    }
  }

  /** Two sorted arrangements of the same non-empty multiset start alike. */
  lemma SortedHeads(r: seq<string>, t: seq<string>)
    requires Sorted(r) && Sorted(t) && multiset(r) == multiset(t) && r != []
    ensures t != [] && r[0] == t[0]
  {
    assert r[0] in multiset(t);
    var i :| 0 <= i < |t| && t[i] == r[0];
    assert t[0] in multiset(r);
    var k :| 0 <= k < |r| && r[k] == t[0];
    assert AtMost(t[0], r[0]) && AtMost(r[0], t[0]);
    if r[0] != t[0] {
      BeforeAsymmetric(t[0], r[0]);
      assert false;
    }
  }

  /** Dropping the head of a sorted list leaves it sorted. */
  lemma SortedTail(s: seq<string>)
    requires s != []
    ensures Sorted(s) ==> Sorted(s[1..])
  {
    if Sorted(s) {
      forall i, j | 0 <= i < j < |s| - 1 ensures AtMost(s[1..][i], s[1..][j]) {
        assert s[1..][i] == s[i + 1] && s[1..][j] == s[j + 1];
      }
    }
  }
}
