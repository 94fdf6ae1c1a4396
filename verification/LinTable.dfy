/**
 Cleaning of a client-supplied linearization table: malformed entries are skipped, the
 rest is sorted by x (stably) and repeated abscissae are dropped, first occurrence wins.
 */
module LinTable {
  import opened Options
  import opened Interpolation

  type Point = (real, real)

  /** One entry of the manifest list: a finite numeric pair, or anything else. */
  datatype Entry = Pair(x: real, y: real) | Malformed

  function Cleaned(entries: seq<Entry>): (ps: seq<Point>) {
    if entries == [] then []
    else
      var rest := Cleaned(entries[..|entries| - 1]);
      match entries[|entries| - 1]
      case Pair(x, y) => rest + [(x, y)]
      case Malformed => rest
  }

  /** The ordinate of the first point with abscissa `x`. */
  function FirstY(ps: seq<Point>, x: real): (y: Option<real>)
    ensures y.Some? <==> exists i :: 0 <= i < |ps| && ps[i].0 == x
  {
    if ps == [] then None
    else if ps[0].0 == x then Some(ps[0].1)
    else FirstY(ps[1..], x)
  }

  ghost predicate SortedByX(ps: seq<Point>) {
    forall i, j :: 0 <= i < j < |ps| ==> ps[i].0 <= ps[j].0
  }

  ghost predicate StrictByX(ps: seq<Point>) {
    forall i, j :: 0 <= i < j < |ps| ==> ps[i].0 < ps[j].0
  }

  /** `list.sort(key=x)`: stable, so a point is inserted before its equals to the right. */
  function Insert(p: Point, ps: seq<Point>): (r: seq<Point>)
    requires SortedByX(ps)
    ensures |r| == |ps| + 1
    ensures forall q :: q in r <==> q == p || q in ps
    ensures SortedByX(r)
  {
    if ps == [] || p.0 <= ps[0].0 then [p] + ps
    else
      assert forall q :: q in ps <==> q == ps[0] || q in ps[1..];
      var s := Insert(p, ps[1..]);
      assert forall q :: q in s ==> q.0 >= ps[0].0;
      [ps[0]] + s
  }

  lemma FirstYCons(p: Point, ps: seq<Point>, x: real)
    ensures FirstY([p] + ps, x) == if p.0 == x then Some(p.1) else FirstY(ps, x)
  {
    assert ([p] + ps)[1..] == ps;
  }

  /** An inserted point answers for its abscissa, and for no other. */
  lemma {:induction false} InsertAnswers(p: Point, ps: seq<Point>, x: real)
    requires SortedByX(ps)
    ensures FirstY(Insert(p, ps), x) == if x == p.0 then Some(p.1) else FirstY(ps, x)
    decreases |ps|
  {
    hide FirstY;
    if ps == [] || p.0 <= ps[0].0 {
      FirstYCons(p, ps, x);
    } else {
      InsertAnswers(p, ps[1..], x);
      FirstYCons(ps[0], Insert(p, ps[1..]), x);
      FirstYCons(ps[0], ps[1..], x);
      assert [ps[0]] + ps[1..] == ps;
    }
  }

  function SortByX(ps: seq<Point>): (r: seq<Point>)
    ensures |r| == |ps|
    ensures SortedByX(r)
    ensures forall x {:trigger FirstY(r, x)} :: FirstY(r, x) == FirstY(ps, x)
  {
    if ps == [] then []
    else
      var rest := SortByX(ps[1..]);
      InsertAnswersAll(ps[0], rest);
      Insert(ps[0], rest)
  }

  lemma InsertAnswersAll(p: Point, ps: seq<Point>)
    requires SortedByX(ps)
    ensures forall x {:trigger FirstY(Insert(p, ps), x)} ::
              FirstY(Insert(p, ps), x) == if x == p.0 then Some(p.1) else FirstY(ps, x)
  {
    forall x ensures FirstY(Insert(p, ps), x) == if x == p.0 then Some(p.1) else FirstY(ps, x) {
      InsertAnswers(p, ps, x);
    }
  }

  function Zip(xs: seq<real>, ys: seq<real>): (ps: seq<Point>)
    requires |xs| == |ys|
  {
    seq(|xs|, i requires 0 <= i < |xs| => (xs[i], ys[i]))
  }

  /**
   What a stored table means for the list it was built from: strictly increasing, and it
   answers every abscissa exactly as the first usable entry of the list with that abscissa.
   */
  ghost predicate Calibrates(entries: seq<Entry>, xs: seq<real>, ys: seq<real>) {
    && |xs| == |ys|
    && Increasing(xs)
    && forall x {:trigger FirstY(Zip(xs, ys), x)} :: FirstY(Zip(xs, ys), x) == FirstY(Cleaned(entries), x)
  }

  /** In the list itself: the entry `(x, y)` stands before any other usable entry with that abscissa. */
  ghost predicate FirstListed(entries: seq<Entry>, x: real, y: real) {
    exists i :: 0 <= i < |entries| && entries[i] == Pair(x, y) && NoneBefore(entries, i, x)
  }

  ghost predicate NoneBefore(entries: seq<Entry>, i: nat, x: real)
    requires i <= |entries|
  {
    forall j :: 0 <= j < i ==> !(entries[j].Pair? && entries[j].x == x)
  }

  /** The list has two usable entries with different abscissae. */
  ghost predicate TwoAbscissae(entries: seq<Entry>) {
    exists i, j :: 0 <= i < |entries| && 0 <= j < |entries|
      && entries[i].Pair? && entries[j].Pair? && entries[i].x != entries[j].x
  }

  /** The stored table has the point `(x, y)`. */
  ghost predicate Knot(xs: seq<real>, ys: seq<real>, x: real, y: real)
    requires |xs| == |ys|
  {
    exists k :: 0 <= k < |xs| && xs[k] == x && ys[k] == y
  }

  lemma FirstListedSnoc(entries: seq<Entry>, e: Entry, x: real, y: real)
    ensures FirstListed(entries + [e], x, y) <==>
              FirstListed(entries, x, y) || (e == Pair(x, y) && NoneBefore(entries, |entries|, x))
  {
    var all := entries + [e];
    if FirstListed(entries, x, y) {
      var i :| 0 <= i < |entries| && entries[i] == Pair(x, y) && NoneBefore(entries, i, x);
      assert all[i] == Pair(x, y) && NoneBefore(all, i, x);
    }
    if e == Pair(x, y) && NoneBefore(entries, |entries|, x) {
      assert all[|entries|] == e && NoneBefore(all, |entries|, x);
    }
    if FirstListed(all, x, y) {
      var i :| 0 <= i < |all| && all[i] == Pair(x, y) && NoneBefore(all, i, x);
      assert forall j :: 0 <= j < |entries| ==> all[j] == entries[j];
      if i < |entries| {
        assert NoneBefore(entries, i, x);
      } else {
        assert NoneBefore(entries, |entries|, x);
      }
    }
  }

  /** Cleaning keeps, for each abscissa, the ordinate of its first usable entry. */
  lemma {:induction false} CleanedKeepsFirst(entries: seq<Entry>, x: real, y: real)
    ensures FirstY(Cleaned(entries), x) == Some(y) <==> FirstListed(entries, x, y)
    ensures FirstY(Cleaned(entries), x) == None <==> NoneBefore(entries, |entries|, x)
    decreases |entries|
  {
    if entries == [] {
    } else {
      var before, e := entries[..|entries| - 1], entries[|entries| - 1];
      assert entries == before + [e];
      CleanedKeepsFirst(before, x, y);
      FirstListedSnoc(before, e, x, y);
      NoneBeforeSnoc(before, e, x);
      if e.Pair? {
        FirstYAppend(Cleaned(before), (e.x, e.y), x);
      }
      hide FirstY, FirstListed, NoneBefore;
    }
  }

  lemma NoneBeforeSnoc(entries: seq<Entry>, e: Entry, x: real)
    ensures NoneBefore(entries + [e], |entries| + 1, x) <==>
              NoneBefore(entries, |entries|, x) && !(e.Pair? && e.x == x)
  {
    var all := entries + [e];
    assert all[|entries|] == e && forall j :: 0 <= j < |entries| ==> all[j] == entries[j];
  }

  lemma FirstYIsKnot(xs: seq<real>, ys: seq<real>, x: real, y: real)
    requires |xs| == |ys| && Increasing(xs)
    ensures FirstY(Zip(xs, ys), x) == Some(y) <==> Knot(xs, ys, x, y)
  {
    var ps := Zip(xs, ys);
    FirstYHolds(ps, x);
    if Knot(xs, ys, x, y) {
      var k :| 0 <= k < |xs| && xs[k] == x && ys[k] == y;
      assert ps[k] == (x, y);
    }
  }

  lemma {:induction false} FirstYHolds(ps: seq<Point>, x: real)
    ensures FirstY(ps, x).Some? ==> exists k :: 0 <= k < |ps| && ps[k] == (x, FirstY(ps, x).value)
    ensures FirstY(ps, x).None? ==> forall k :: 0 <= k < |ps| ==> ps[k].0 != x
    decreases |ps|
  {
    if ps == [] {
    } else {
      FirstYHolds(ps[1..], x);
      if ps[0].0 != x && FirstY(ps, x).Some? {
        var k :| 0 <= k < |ps| - 1 && ps[1..][k] == (x, FirstY(ps, x).value);
        assert ps[k + 1] == (x, FirstY(ps, x).value);
      } else if ps[0].0 == x {
        assert ps[0] == (x, FirstY(ps, x).value);
      } else {
        assert forall k :: 0 < k < |ps| ==> ps[k] == ps[1..][k - 1];
      }
    }
  }

  /**
   A table that calibrates a list, in the list's own terms: it has the point `(x, y)` exactly
   when the first usable entry of the list with abscissa `x` is `(x, y)`.
   */
  lemma TableIsTheList(entries: seq<Entry>, xs: seq<real>, ys: seq<real>, x: real, y: real)
    requires Calibrates(entries, xs, ys)
    ensures Knot(xs, ys, x, y) <==> FirstListed(entries, x, y)
  {
    hide FirstY, Knot, FirstListed, Zip;
    CleanedKeepsFirst(entries, x, y);
    FirstYIsKnot(xs, ys, x, y);
  }

  /** It has two points exactly when the list has two abscissae. */
  lemma TwoPoints(entries: seq<Entry>, xs: seq<real>, ys: seq<real>)
    requires Calibrates(entries, xs, ys)
    ensures |xs| >= 2 <==> TwoAbscissae(entries)
  {
    hide FirstY, Zip;
    if |xs| >= 2 {
      assert Knot(xs, ys, xs[0], ys[0]) && Knot(xs, ys, xs[1], ys[1]);
      TableIsTheList(entries, xs, ys, xs[0], ys[0]);
      TableIsTheList(entries, xs, ys, xs[1], ys[1]);
    }
    if TwoAbscissae(entries) {
      var i, j :| 0 <= i < |entries| && 0 <= j < |entries|
        && entries[i].Pair? && entries[j].Pair? && entries[i].x != entries[j].x;
      SomeKnot(entries, xs, ys, i);
      SomeKnot(entries, xs, ys, j);
    }
  }

  /** Every usable entry's abscissa is in the table. */
  lemma SomeKnot(entries: seq<Entry>, xs: seq<real>, ys: seq<real>, i: nat)
    requires Calibrates(entries, xs, ys) && i < |entries| && entries[i].Pair?
    ensures entries[i].x in xs
  {
    var x := entries[i].x;
    CleanedKeepsFirst(entries, x, 0.0);
    assert !NoneBefore(entries, |entries|, x);
    assert FirstY(Zip(xs, ys), x) == FirstY(Cleaned(entries), x);
    var y := FirstY(Zip(xs, ys), x).value;
    FirstYIsKnot(xs, ys, x, y);
  }

  lemma {:induction false} CleanedShort(entries: seq<Entry>)
    requires TwoAbscissae(entries)
    ensures |Cleaned(entries)| >= 2
  {
    var i, j :| 0 <= i < |entries| && 0 <= j < |entries|
      && entries[i].Pair? && entries[j].Pair? && entries[i].x != entries[j].x;
    CleanedKeepsFirst(entries, entries[i].x, 0.0);
    CleanedKeepsFirst(entries, entries[j].x, 0.0);
    assert !NoneBefore(entries, |entries|, entries[i].x) && !NoneBefore(entries, |entries|, entries[j].x);
    FirstYHolds(Cleaned(entries), entries[i].x);
    FirstYHolds(Cleaned(entries), entries[j].x);
  }

  lemma {:induction false} FirstYAppend(ps: seq<Point>, p: Point, x: real)
    ensures FirstY(ps + [p], x) ==
            if FirstY(ps, x).Some? then FirstY(ps, x) else if p.0 == x then Some(p.1) else None
  {
    if ps == [] {
      assert [p][1..] == [];
    } else {
      assert (ps + [p])[1..] == ps[1..] + [p];
      FirstYAppend(ps[1..], p, x);
    }
  }

  lemma {:induction false} SameAnswersSamePoints(ps: seq<Point>, qs: seq<Point>)
    requires StrictByX(ps) && StrictByX(qs)
    requires forall x :: FirstY(ps, x) == FirstY(qs, x)
    ensures ps == qs
  {
    if ps == [] || qs == [] {
      assert ps != [] ==> FirstY(ps, ps[0].0).Some?;
      assert qs != [] ==> FirstY(qs, qs[0].0).Some?;
    } else {
      assert FirstY(qs, ps[0].0).Some? && FirstY(ps, qs[0].0).Some?;
      assert ps[0].0 == qs[0].0;
      forall x ensures FirstY(ps[1..], x) == FirstY(qs[1..], x) {
        assert FirstY(ps, x) == FirstY(qs, x);
      }
      SameAnswersSamePoints(ps[1..], qs[1..]);
      assert ps == [ps[0]] + ps[1..] && qs == [qs[0]] + qs[1..];
    }
  }

  /** The two conditions leave no freedom: a list determines its table. */
  lemma CalibrationUnique(entries: seq<Entry>, xs: seq<real>, ys: seq<real>, xs': seq<real>, ys': seq<real>)
    requires Calibrates(entries, xs, ys) && Calibrates(entries, xs', ys')
    ensures xs == xs' && ys == ys'
  {
    var ps, qs := Zip(xs, ys), Zip(xs', ys');
    forall x ensures FirstY(ps, x) == FirstY(qs, x) {}
    SameAnswersSamePoints(ps, qs);
    assert |ps| == |xs| && |qs| == |xs'|;
    assert forall i :: 0 <= i < |xs| ==> ps[i] == (xs[i], ys[i]) && qs[i] == (xs'[i], ys'[i]);
  }
}
