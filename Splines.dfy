/** The knot store of a cubic Hermite spline: a sequence of (x, y, dy) knots kept in
    order of x. Only knot insertion is modelled; the cubic coefficients that the spline
    derives from neighbouring knots are supplied by callers where they are needed. */
module Splines {

  /** One knot: abscissa, value and slope. */
  datatype Knot = Knot(x: real, y: real, dy: real)

  /** Abscissae never decrease along the sequence. */
  ghost predicate Sorted(ks: seq<Knot>)
  {
    forall i, j :: 0 <= i < j < |ks| ==> ks[i].x <= ks[j].x
  }

  /** Abscissae strictly increase along the sequence: no two knots share an x. */
  ghost predicate StrictlyIncreasing(ks: seq<Knot>)
  {
    forall i, j :: 0 <= i < j < |ks| ==> ks[i].x < ks[j].x
  }

  /** Inserts k in front of the first knot whose abscissa exceeds k.x. */
  function InsertSorted(ks: seq<Knot>, k: Knot): (r: seq<Knot>)
    ensures |r| == |ks| + 1
  {
    if ks == [] then [k]
    else if k.x < ks[0].x then [k] + ks
    else [ks[0]] + InsertSorted(ks[1..], k)
  }

  /** Insertion adds k and keeps every other knot. */
  lemma {:induction false} InsertSortedElements(ks: seq<Knot>, k: Knot)
    ensures multiset(InsertSorted(ks, k)) == multiset(ks) + multiset{k}
  {
    if ks != [] && k.x >= ks[0].x {
      InsertSortedElements(ks[1..], k);
      assert ks == [ks[0]] + ks[1..];
    }
  }

  /** A lower bound of every abscissa, and of k.x, bounds every abscissa after insertion. */
  lemma {:induction false} InsertSortedLowerBound(ks: seq<Knot>, k: Knot, b: real)
    requires forall i :: 0 <= i < |ks| ==> b <= ks[i].x
    requires b <= k.x
    ensures forall j :: 0 <= j < |ks| + 1 ==> b <= InsertSorted(ks, k)[j].x
  {
    if ks != [] && k.x >= ks[0].x {
      InsertSortedLowerBound(ks[1..], k, b);
      var r := InsertSorted(ks, k);
      forall j | 0 <= j < |ks| + 1 ensures b <= r[j].x {
        if j > 0 { assert r[j] == InsertSorted(ks[1..], k)[j - 1]; }
      }
    }
  }

  /** Insertion keeps the knots ordered by x. */
  lemma {:induction false} InsertSortedKeepsSorted(ks: seq<Knot>, k: Knot)
    requires Sorted(ks)
    ensures Sorted(InsertSorted(ks, k))
  {
    if ks == [] {
    } else if k.x < ks[0].x {
      var r := [k] + ks;
      forall i, j | 0 <= i < j < |r| ensures r[i].x <= r[j].x {
        if i > 0 { assert r[i] == ks[i - 1]; }
        assert r[j] == ks[j - 1];
      }
    } else {
      var tail := ks[1..];
      assert Sorted(tail);
      InsertSortedKeepsSorted(tail, k);
      InsertSortedLowerBound(tail, k, ks[0].x);
      var rest := InsertSorted(tail, k);
      var r := [ks[0]] + rest;
      assert InsertSorted(ks, k) == r;
      forall i, j | 0 <= i < j < |r| ensures r[i].x <= r[j].x {
        assert r[j] == rest[j - 1];
        if i > 0 { assert r[i] == rest[i - 1]; }
      }
    }
  }

  /** Inserting a knot that lies strictly between ks[p-1] and ks[p] puts it at index p. */
  lemma {:induction false} InsertBetween(ks: seq<Knot>, k: Knot, p: nat)
    requires p <= |ks|
    requires forall i :: 0 <= i < p ==> ks[i].x <= k.x
    requires forall i :: p <= i < |ks| ==> k.x < ks[i].x
    ensures InsertSorted(ks, k) == ks[..p] + [k] + ks[p..]
  {
    if ks == [] {
    } else if p == 0 {
      assert k.x < ks[0].x;
    } else {
      assert ks[0].x <= k.x;
      if k.x < ks[0].x { assert false; }
      InsertBetween(ks[1..], k, p - 1);
      assert ks[1..][..p - 1] == ks[1..p];
      assert ks[1..][p - 1..] == ks[p..];
      assert ks[..p] == [ks[0]] + ks[1..p];
    }
  }

  /** A knot beyond every existing abscissa goes to the end. */
  lemma InsertAtEnd(ks: seq<Knot>, k: Knot)
    requires forall i :: 0 <= i < |ks| ==> ks[i].x <= k.x
    ensures InsertSorted(ks, k) == ks + [k]
  {
    InsertBetween(ks, k, |ks|);
    assert ks[..|ks|] == ks;
  }

  /** Four knots added in order of increasing x end up in that order. */
  lemma BuildInOrder4(a: Knot, b: Knot, c: Knot, d: Knot)
    requires a.x < b.x < c.x < d.x
    ensures InsertSorted(InsertSorted(InsertSorted(InsertSorted([], a), b), c), d) == [a, b, c, d]
  {
    assert InsertSorted([], a) == [a];
    InsertAtEnd([a], b);
    assert InsertSorted([a], b) == [a, b];
    InsertAtEnd([a, b], c);
    assert InsertSorted([a, b], c) == [a, b, c];
    InsertAtEnd([a, b, c], d);
    assert InsertSorted([a, b, c], d) == [a, b, c, d];
  }

  /** Three knots added first, last, then middle end up in order of x. */
  lemma BuildMiddleLast3(a: Knot, b: Knot, c: Knot)
    requires a.x < b.x < c.x
    ensures InsertSorted(InsertSorted(InsertSorted([], a), c), b) == [a, b, c]
  {
    assert InsertSorted([], a) == [a];
    InsertAtEnd([a], c);
    assert InsertSorted([a], c) == [a, c];
    InsertBetween([a, c], b, 1);
    assert [a, c][..1] + [b] + [a, c][1..] == [a, b, c];
  }

  /** Five knots added in order except that the fourth comes last end up in order of x. */
  lemma BuildFourthLast5(a: Knot, b: Knot, c: Knot, d: Knot, e: Knot)
    requires a.x < b.x < c.x < d.x < e.x
    ensures InsertSorted(InsertSorted(InsertSorted(InsertSorted(InsertSorted([], a), b), c), e), d)
      == [a, b, c, d, e]
  {
    var s := [a, b, c, e];
    BuildInOrder4(a, b, c, e);
    assert s[0].x <= d.x && s[1].x <= d.x && s[2].x <= d.x && d.x < s[3].x;
    InsertBetween(s, d, 3);
    assert s[..3] + [d] + s[3..] == [a, b, c, d, e];
    assert InsertSorted(s, d) == [a, b, c, d, e];
  }

  /** Inserting an abscissa that is not yet present keeps the abscissae strictly increasing. */
  lemma InsertKeepsStrict(ks: seq<Knot>, k: Knot, p: nat)
    requires StrictlyIncreasing(ks)
    requires p <= |ks|
    requires forall i :: 0 <= i < p ==> ks[i].x < k.x
    requires forall i :: p <= i < |ks| ==> k.x < ks[i].x
    ensures InsertSorted(ks, k) == ks[..p] + [k] + ks[p..]
    ensures StrictlyIncreasing(InsertSorted(ks, k))
  {
    InsertBetween(ks, k, p);
    var r := ks[..p] + [k] + ks[p..];
    forall i, j | 0 <= i < j < |r| ensures r[i].x < r[j].x {
      InsertedPairOrdered(ks, k, p, i, j);
    }
  }

  /** One pair of positions of the sequence with k inserted at p. */
  lemma InsertedPairOrdered(ks: seq<Knot>, k: Knot, p: nat, i: nat, j: nat)
    requires StrictlyIncreasing(ks)
    requires p <= |ks|
    requires forall i :: 0 <= i < p ==> ks[i].x < k.x
    requires forall i :: p <= i < |ks| ==> k.x < ks[i].x
    requires i < j < |ks| + 1
    ensures (ks[..p] + [k] + ks[p..])[i].x < (ks[..p] + [k] + ks[p..])[j].x
  {
    var r := ks[..p] + [k] + ks[p..];
    if j < p {
      assert r[i] == ks[i] && r[j] == ks[j];
    } else if j == p {
      assert r[i] == ks[i] && r[j] == k;
    } else if i < p {
      assert r[i] == ks[i] && r[j] == ks[j - 1];
    } else if i == p {
      assert r[i] == k && r[j] == ks[j - 1];
    } else {
      assert r[i] == ks[i - 1] && r[j] == ks[j - 1];
    }
  }


  /** A spline as far as its knots go. CubicHermiteSpline1d keeps its knots ordered by x;
      addKnot inserts at the ordered position. */
  class Spline {
    var knots: seq<Knot>

    ghost predicate Valid()
      reads this
    {
      Sorted(knots)
    }

    /** An empty spline. */
    constructor ()
      ensures Valid() && knots == []
    {
      knots := [];
    }

    /** A copy that shares nothing with `other`. */
    constructor Copy(other: Spline)
      requires other.Valid()
      ensures Valid() && knots == other.knots
    {
      knots := other.knots;
    }

    method AddKnot(x: real, y: real, dy: real)
      requires Valid()
      modifies this
      ensures Valid()
      ensures knots == InsertSorted(old(knots), Knot(x, y, dy))
    {
      InsertSortedKeepsSorted(knots, Knot(x, y, dy));
      knots := InsertSorted(knots, Knot(x, y, dy));
    }
  }
}
