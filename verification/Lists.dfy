/** First match and concatenation over lists, as used by the policy engine. */
module Lists {
  import opened Options

  /** The first element of a list that passes a test. */
  ghost function FirstWhere<T>(xs: seq<T>, hit: T -> bool): Option<T>
  {
    if xs == [] then None
    else
      var n := |xs| - 1;
      var before := FirstWhere(xs[..n], hit);
      if before.Some? then before else if hit(xs[n]) then Some(xs[n]) else None
  }

  lemma {:induction false} FirstWhereMeaning<T>(xs: seq<T>, hit: T -> bool)
    ensures FirstWhere(xs, hit).Some? <==> exists x :: x in xs && hit(x)
    ensures FirstWhere(xs, hit).Some? ==>
              exists i :: 0 <= i < |xs| && FirstWhere(xs, hit).value == xs[i] && hit(xs[i])
                          && forall j :: 0 <= j < i ==> !hit(xs[j])
  {
    if xs != [] {
      var n := |xs| - 1;
      FirstWhereMeaning(xs[..n], hit);
      assert xs == xs[..n] + [xs[n]];
      if FirstWhere(xs[..n], hit).Some? {
        var i :| 0 <= i < n && FirstWhere(xs[..n], hit).value == xs[..n][i] && hit(xs[..n][i])
                 && forall j :: 0 <= j < i ==> !hit(xs[..n][j]);
        assert FirstWhere(xs, hit).value == xs[i];
        assert forall j :: 0 <= j < i ==> xs[..n][j] == xs[j];
      } else {
        assert forall j :: 0 <= j < n ==> xs[j] in xs[..n];
      }
    }
  }

  lemma FirstWhereSnoc<T>(xs: seq<T>, i: nat, hit: T -> bool)
    requires i < |xs|
    ensures FirstWhere(xs[..i + 1], hit) ==
            if FirstWhere(xs[..i], hit).Some? then FirstWhere(xs[..i], hit)
            else if hit(xs[i]) then Some(xs[i]) else None
  {
    assert xs[..i + 1][..i] == xs[..i];
  }

  lemma {:induction false} FirstWhereConcat<T>(a: seq<T>, b: seq<T>, hit: T -> bool)
    ensures FirstWhere(a + b, hit) == if FirstWhere(a, hit).Some? then FirstWhere(a, hit) else FirstWhere(b, hit)
  {
    if b == [] {
      assert a + b == a;
    } else {
      var n := |b| - 1;
      assert (a + b)[..|a + b| - 1] == a + b[..n];
      FirstWhereConcat(a, b[..n], hit);
    }
  }

  /** The pieces of the elements of a list, one after the other. */
  ghost function FlatMap<T, U>(xs: seq<T>, piece: T -> seq<U>): seq<U>
  {
    if xs == [] then [] else FlatMap(xs[..|xs| - 1], piece) + piece(xs[|xs| - 1])
  }

  lemma FlatMapSnoc<T, U>(xs: seq<T>, i: nat, piece: T -> seq<U>)
    requires i < |xs|
    ensures FlatMap(xs[..i + 1], piece) == FlatMap(xs[..i], piece) + piece(xs[i])
  {
    assert xs[..i + 1][..i] == xs[..i];
  }

  lemma {:induction false} FlatMapConcat<T, U>(a: seq<T>, b: seq<T>, piece: T -> seq<U>)
    ensures FlatMap(a + b, piece) == FlatMap(a, piece) + FlatMap(b, piece)
  {
    if b == [] {
      assert a + b == a;
    } else {
      var n := |b| - 1;
      assert (a + b)[..|a + b| - 1] == a + b[..n];
      FlatMapConcat(a, b[..n], piece);
      assert FlatMap(a, piece) + (FlatMap(b[..n], piece) + piece(b[n]))
          == (FlatMap(a, piece) + FlatMap(b[..n], piece)) + piece(b[n]);
    }
  }

  lemma {:induction false} FlatMapMember<T, U>(xs: seq<T>, piece: T -> seq<U>, y: U)
    ensures y in FlatMap(xs, piece) <==> exists x :: x in xs && y in piece(x)
  {
    if xs != [] {
      var n := |xs| - 1;
      FlatMapMember(xs[..n], piece, y);
      assert xs == xs[..n] + [xs[n]];
    }
  }

  /** Searching the pieces of the first i elements: a hit there is the overall first
      hit, otherwise the next piece decides. */
  lemma FirstInFlatMap<T, U>(xs: seq<T>, i: nat, piece: T -> seq<U>, hit: U -> bool)
    requires i < |xs| && FirstWhere(FlatMap(xs[..i], piece), hit).None?
    ensures FirstWhere(FlatMap(xs[..i + 1], piece), hit) == FirstWhere(piece(xs[i]), hit)
    ensures FirstWhere(piece(xs[i]), hit).Some? ==>
              FirstWhere(FlatMap(xs, piece), hit) == FirstWhere(piece(xs[i]), hit)
  {
    FlatMapSnoc(xs, i, piece);
    FirstWhereConcat(FlatMap(xs[..i], piece), piece(xs[i]), hit);
    assert xs == xs[..i + 1] + xs[i + 1..];
    FlatMapConcat(xs[..i + 1], xs[i + 1..], piece);
    FirstWhereConcat(FlatMap(xs[..i + 1], piece), FlatMap(xs[i + 1..], piece), hit);
  }

  /** Flat-mapping a flattened list. */
  lemma {:induction false} FlatMapFlatMap<T(!new), U, V>(xs: seq<T>, f: T -> seq<U>, g: U -> seq<V>, fg: T -> seq<V>)
    requires forall x :: fg(x) == FlatMap(f(x), g)
    ensures FlatMap(FlatMap(xs, f), g) == FlatMap(xs, fg)
  {
    if xs != [] {
      var n := |xs| - 1;
      FlatMapFlatMap(xs[..n], f, g, fg);
      FlatMapConcat(FlatMap(xs[..n], f), f(xs[n]), g);
    }
  }

  lemma FirstWherePrefix<T>(xs: seq<T>, i: nat, hit: T -> bool)
    requires i <= |xs| && FirstWhere(xs[..i], hit).Some?
    ensures FirstWhere(xs, hit) == FirstWhere(xs[..i], hit)
  {
    assert xs == xs[..i] + xs[i..];
    FirstWhereConcat(xs[..i], xs[i..], hit);
  }
}
