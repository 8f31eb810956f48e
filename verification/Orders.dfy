/**
 Strict linear orders, the one sorted listing of a finite set, and a stable insertion
 sort that stands for Go's `sort.Strings`, `sort.Slice` and `sort.SliceStable`.
 */
module Orders {

  /** A strict order that compares any two elements of s. */
  ghost predicate Linear<T(!new)>(s: set<T>, less: (T, T) -> bool)
  {
    && (forall x :: !less(x, x))
    && (forall x, y, z :: less(x, y) && less(y, z) ==> less(x, z))
    && (forall x, y :: x in s && y in s ==> x == y || less(x, y) || less(y, x))
  }

  ghost predicate IsLeast<T(!new)>(m: T, s: set<T>, less: (T, T) -> bool)
  {
    m in s && forall x :: x in s && x != m ==> less(m, x)
  }

  lemma {:induction false} LeastExists<T(!new)>(s: set<T>, less: (T, T) -> bool)
    requires Linear(s, less) && s != {}
    ensures exists m :: IsLeast(m, s, less)
    decreases |s|
  {
    var x :| x in s;
    var rest := s - {x};
    if rest == {} {
      assert s == {x} && IsLeast(x, s, less);
    } else {
      LeastExists(rest, less);
      var m :| IsLeast(m, rest, less);
      if less(x, m) {
        forall y | y in s && y != x
          ensures less(x, y)
        {
          assert y in rest;
          assert y == m || less(m, y);
        }
        assert IsLeast(x, s, less);
      } else {
        assert IsLeast(m, s, less);
      }
    }
  }

  ghost function Least<T(!new)>(s: set<T>, less: (T, T) -> bool): (m: T)
    requires Linear(s, less) && s != {}
    ensures IsLeast(m, s, less)
  {
    LeastExists(s, less);
    var m :| IsLeast(m, s, less); m
  }

  /** The elements of a set in increasing order. */
  ghost function Arrange<T(!new)>(s: set<T>, less: (T, T) -> bool): (r: seq<T>)
    requires Linear(s, less)
    ensures |r| == |s|
    ensures forall x :: x in r <==> x in s
    decreases |s|
  {
    if s == {} then []
    else
      var m := Least(s, less);
      [m] + Arrange(s - {m}, less)
  }

  ghost predicate Increasing<T(!new)>(q: seq<T>, less: (T, T) -> bool)
  {
    forall i, j :: 0 <= i < j < |q| ==> less(q[i], q[j])
  }

  lemma {:induction false} ArrangeIncreases<T(!new)>(s: set<T>, less: (T, T) -> bool)
    requires Linear(s, less)
    ensures Increasing(Arrange(s, less), less)
    decreases |s|
  {
    if s != {} {
      var m := Least(s, less);
      ArrangeIncreases(s - {m}, less);
      var q := Arrange(s, less);
      forall i, j | 0 <= i < j < |q|
        ensures less(q[i], q[j])
      {
        assert q[j] == Arrange(s - {m}, less)[j - 1];
        if i == 0 {
          assert q[j] in s - {m};
        }
      }
    }
  }

  function Elements<T>(q: seq<T>): set<T> { set x | x in q }

  /** There is only one increasing listing of a set. */
  lemma {:induction false} ArrangeUnique<T(!new)>(q: seq<T>, less: (T, T) -> bool)
    requires Linear(Elements(q), less) && Increasing(q, less)
    ensures q == Arrange(Elements(q), less)
  {
    var s := Elements(q);
    if q != [] {
      assert q[0] in s;
      var m := Least(s, less);
      assert forall i :: 0 < i < |q| ==> less(q[0], q[i]);
      assert m == q[0];
      var rest := q[1..];
      assert q[0] !in rest;
      assert Elements(rest) == s - {m};
      ArrangeUnique(rest, less);
    }
  }

  // ---------------------------------------------------------------- sorting

  function Insert<T>(x: T, q: seq<T>, less: (T, T) -> bool): seq<T>
  {
    if q == [] then [x]
    else if less(q[0], x) then [q[0]] + Insert(x, q[1..], less)
    else [x] + q
  }

  lemma {:induction false} SubsetSize<T>(a: set<T>, b: set<T>)
    requires a <= b
    ensures |a| <= |b|
    ensures |a| == |b| ==> a == b
    decreases |a|
  {
    if a != {} {
      var x :| x in a;
      SubsetSize(a - {x}, b - {x});
      assert |a - {x}| == |a| - 1 && |b - {x}| == |b| - 1;
      assert a == a - {x} + {x} && b == b - {x} + {x};
    } else if |b| == 0 {
      assert b == {};
    }
  }

  /** A stable sort: x goes before the first element that is not less than it. */
  function Sort<T>(q: seq<T>, less: (T, T) -> bool): seq<T>
  {
    if q == [] then [] else Insert(q[0], Sort(q[1..], less), less)
  }

  ghost predicate Distinct<T(!new)>(q: seq<T>)
  {
    forall i, j :: 0 <= i < j < |q| ==> q[i] != q[j]
  }

  lemma {:induction false} InsertIncreases<T(!new)>(x: T, q: seq<T>, less: (T, T) -> bool)
    requires Linear(Elements(q) + {x}, less) && Increasing(q, less) && x !in q
    ensures var r := Insert(x, q, less);
            Increasing(r, less) && forall y :: y in r <==> y == x || y in q
  {
    var r := Insert(x, q, less);
    if q != [] {
      if less(q[0], x) {
        InsertIncreases(x, q[1..], less);
        var t := Insert(x, q[1..], less);
        forall i, j | 0 <= i < j < |r|
          ensures less(r[i], r[j])
        {
          assert r[j] == t[j - 1] && r[j] in t;
          if i == 0 && r[j] != x {
            var k :| 0 <= k < |q[1..]| && q[1..][k] == r[j];
            assert less(q[0], q[k + 1]);
          }
        }
      } else {
        forall i, j | 0 <= i < j < |r|
          ensures less(r[i], r[j])
        {
          assert r[j] == q[j - 1];
          if i == 0 {
            assert less(x, q[0]);
          }
        }
      }
    }
  }

  /** Sorting a duplicate-free list gives the listing of its elements, whatever the
      order it started in. */
  lemma {:induction false} SortArranges<T(!new)>(q: seq<T>, less: (T, T) -> bool)
    requires Linear(Elements(q), less) && Distinct(q)
    ensures Sort(q, less) == Arrange(Elements(q), less)
  {
    SortOfDistinct(q, less);
    ArrangeUnique(Sort(q, less), less);
    assert Elements(Sort(q, less)) == Elements(q);
  }

  lemma {:induction false} SortOfDistinct<T(!new)>(q: seq<T>, less: (T, T) -> bool)
    requires Linear(Elements(q), less) && Distinct(q)
    ensures Increasing(Sort(q, less), less)
    ensures forall y :: y in Sort(q, less) <==> y in q
  {
    if q != [] {
      SortOfDistinct(q[1..], less);
      assert q == [q[0]] + q[1..];
      InsertIncreases(q[0], Sort(q[1..], less), less);
    }
  }

  // ---------------------------------------------------------------- byte strings

  /** Go's `<` on strings. */
  predicate LexLess(a: string, b: string)
  {
    if b == "" then false
    else if a == "" then true
    else a[0] < b[0] || (a[0] == b[0] && LexLess(a[1..], b[1..]))
  }

  lemma {:induction false} LexTransitive(a: string, b: string, c: string)
    requires LexLess(a, b) && LexLess(b, c)
    ensures LexLess(a, c)
  {
    if a != "" && a[0] == b[0] == c[0] {
      LexTransitive(a[1..], b[1..], c[1..]);
    }
  }

  lemma {:induction false} LexConnected(a: string, b: string)
    ensures a == b || LexLess(a, b) || LexLess(b, a)
  {
    if a != "" && b != "" && a[0] == b[0] {
      LexConnected(a[1..], b[1..]);
      assert a == [a[0]] + a[1..] && b == [b[0]] + b[1..];
    }
  }

  lemma {:induction false} LexIrreflexive(a: string)
    ensures !LexLess(a, a)
  {
    if a != "" {
      LexIrreflexive(a[1..]);
    }
  }

  lemma LexIsLinear(s: set<string>)
    ensures Linear(s, LexLess)
  {
    forall a, b, c | LexLess(a, b) && LexLess(b, c)
      ensures LexLess(a, c)
    {
      LexTransitive(a, b, c);
    }
    forall a, b
      ensures a == b || LexLess(a, b) || LexLess(b, a)
    {
      LexConnected(a, b);
    }
    forall a
      ensures !LexLess(a, a)
    {
      LexIrreflexive(a);
    }
  }
}
