/** The nearby-stop search: one pass over the stops with a three-branch
    selection rule, then a stable sort by distance and a cut to ten entries.

    The great-circle distance of each stop from the query point is taken as
    given: every visited stop arrives as an Entry carrying its distance in km. */
module Nearby {

  /** A visited stop: Id, Name and distance (km) from the query point. */
  datatype Entry = Entry(id: int, name: string, dist: real)

  /** Stops closer than this are "nearby". */
  const Radius: real := 3.0
  /** At most this many stops are reported. */
  const MaxShown: nat := 10

  // ---------------------------------------------------------------------------
  // The scan
  // ---------------------------------------------------------------------------

  /** One loop iteration: the first stop always becomes the anchor; while the
      only candidate is an anchor farther than Radius, a strictly closer stop
      replaces it; otherwise a stop closer than Radius is appended. */
  function Step(nearby: seq<Entry>, e: Entry): (r: seq<Entry>)
    ensures r != []
    ensures r == nearby || r == nearby + [e] || r == [e]
    ensures |nearby| == 1 && nearby[0].dist > Radius ==> |r| == 1
  {
    if |nearby| == 0 then [e]
    else if |nearby| == 1 && nearby[0].dist > Radius then
      (if e.dist < nearby[0].dist then nearby[1..] + [e] else nearby)
    else if e.dist < Radius then nearby + [e]
    else nearby
  }

  /** The candidate list after visiting every stop of `es` in order. */
  function Scan(es: seq<Entry>): (r: seq<Entry>)
    ensures es != [] <==> r != []
    decreases |es|
  {
    if es == [] then [] else Step(Scan(es[..|es| - 1]), es[|es| - 1])
  }

  /** Every candidate is one of the visited stops. */
  lemma {:induction false} ScanMembers(es: seq<Entry>)
    ensures forall x :: x in Scan(es) ==> x in es
    decreases |es|
  {
    if es != [] {
      var pre := es[..|es| - 1];
      ScanMembers(pre);
      assert forall x :: x in pre ==> x in es;
    }
  }

  /** The loop of the view itself, keeping `nearby_size` beside the list. */
  method CollectNearby(es: seq<Entry>) returns (nearby: seq<Entry>, size: nat)
    ensures nearby == Scan(es)
    ensures size == |nearby|
  {
    nearby := [];
    size := 0;
    var k := 0;
    while k < |es|
      invariant 0 <= k <= |es|
      invariant nearby == Scan(es[..k])
      invariant size == |nearby|
    {
      var e := es[k];
      if size == 0 {
        nearby := nearby + [e];
        size := 1;
      } else if size == 1 && nearby[0].dist > Radius {
        if e.dist < nearby[0].dist {
          nearby := nearby[1..] + [e];
        }
      } else if e.dist < Radius {
        nearby := nearby + [e];
        size := size + 1;
      }
      assert es[..k + 1][..k] == es[..k];
      k := k + 1;
    }
    assert es[..|es|] == es;
  }

  // ---------------------------------------------------------------------------
  // An independent description of the candidates
  // ---------------------------------------------------------------------------

  /** The earliest position holding a minimum distance. */
  function FirstMin(es: seq<Entry>): (k: nat)
    requires es != []
    ensures k < |es|
    ensures forall j :: 0 <= j < |es| ==> es[k].dist <= es[j].dist
    ensures forall j :: 0 <= j < k ==> es[j].dist > es[k].dist
    decreases |es|
  {
    if |es| == 1 then 0
    else
      var k := FirstMin(es[..|es| - 1]);
      if es[|es| - 1].dist < es[k].dist then |es| - 1 else k
  }

  /** The position of the first stop closer than Radius, or |es| if none is. */
  function FirstNear(es: seq<Entry>): (f: nat)
    ensures f <= |es|
    ensures forall j :: 0 <= j < f ==> es[j].dist >= Radius
    ensures f < |es| ==> es[f].dist < Radius
  {
    if es == [] then 0 else if es[0].dist < Radius then 0 else 1 + FirstNear(es[1..])
  }

  lemma FirstNearIs(es: seq<Entry>, f: nat)
    requires f <= |es|
    requires forall j :: 0 <= j < f ==> es[j].dist >= Radius
    requires f < |es| ==> es[f].dist < Radius
    ensures FirstNear(es) == f
  {
  }

  /** The stops closer than Radius, in visiting order. */
  function Near(es: seq<Entry>): (r: seq<Entry>)
    ensures forall k :: 0 <= k < |r| ==> r[k].dist < Radius
    decreases |es|
  {
    if es == [] then []
    else Near(es[..|es| - 1]) + (if es[|es| - 1].dist < Radius then [es[|es| - 1]] else [])
  }

  /** Near keeps exactly the stops closer than Radius. */
  lemma {:induction false} NearMembers(es: seq<Entry>)
    ensures forall x :: x in Near(es) ==> x in es
    ensures forall i :: 0 <= i < |es| && es[i].dist < Radius ==> es[i] in Near(es)
    decreases |es|
  {
    if es != [] {
      var pre := es[..|es| - 1];
      NearMembers(pre);
      NearSnoc(es);
      assert forall i :: 0 <= i < |pre| ==> pre[i] == es[i];
    }
  }

  lemma NearEmpty(es: seq<Entry>)
    requires forall j :: 0 <= j < |es| ==> es[j].dist >= Radius
    ensures Near(es) == []
  {
  }

  /** The anchor the scan still holds beside the nearby stops: the earliest
      nearest stop seen before the first stop closer than Radius, kept when no
      such stop follows it or when it lies exactly at Radius. */
  function Anchor(es: seq<Entry>): seq<Entry> {
    var f := FirstNear(es);
    if f == 0 then []
    else
      var m := es[FirstMin(es[..f])];
      if f == |es| || m.dist == Radius then [m] else []
  }

  /** What the scan keeps, stated without the loop: every stop closer than
      Radius, preceded by the anchor when it lies exactly at Radius (it is then
      never displaced); if no stop is closer than Radius, just the earliest
      nearest stop. */
  function Expected(es: seq<Entry>): seq<Entry> {
    Anchor(es) + Near(es)
  }

  lemma NearSnoc(es: seq<Entry>)
    requires es != []
    ensures Near(es) == Near(es[..|es| - 1]) + (if es[|es| - 1].dist < Radius then [es[|es| - 1]] else [])
  {
  }

  /** Once a stop closer than Radius has been seen the anchor is settled. */
  lemma AnchorSettled(es: seq<Entry>)
    requires es != []
    requires FirstNear(es[..|es| - 1]) < |es| - 1
    ensures Anchor(es) == Anchor(es[..|es| - 1])
  {
    var pre := es[..|es| - 1];
    var f := FirstNear(pre);
    FirstNearIs(es, f);
    assert es[..f] == pre[..f];
  }

  /** Before any stop closer than Radius, the anchor is the earliest nearest stop. */
  lemma AnchorBeforeNear(es: seq<Entry>)
    requires es != []
    requires forall j :: 0 <= j < |es| ==> es[j].dist >= Radius
    ensures Anchor(es) == [es[FirstMin(es)]]
  {
    FirstNearIs(es, |es|);
    assert es[..|es|] == es;
  }

  /** The first stop closer than Radius displaces an anchor farther than Radius. */
  lemma AnchorAtFirstNear(es: seq<Entry>)
    requires |es| >= 2
    requires forall j :: 0 <= j < |es| - 1 ==> es[j].dist >= Radius
    requires es[|es| - 1].dist < Radius
    ensures var pre := es[..|es| - 1]; var m := pre[FirstMin(pre)];
      Anchor(es) == if m.dist == Radius then [m] else []
  {
    var pre := es[..|es| - 1];
    FirstNearIs(es, |pre|);
  }

  /** Regrouping a concatenation. It is a lemma of its own because proving it
      inside `StepAfterNear`, among that proof's facts, runs out of resource. */
  lemma Assoc(a: seq<Entry>, b: seq<Entry>, c: seq<Entry>)
    ensures (a + b) + c == a + (b + c)
  {
  }

  /** Past the anchor phase a step appends a stop closer than Radius and
      drops any other. */
  lemma StepAppends(c: seq<Entry>, e: Entry)
    requires c != [] && !(|c| == 1 && c[0].dist > Radius)
    ensures Step(c, e) == c + (if e.dist < Radius then [e] else [])
  {
  }

  /** Inductive step once a stop closer than Radius has been seen: the scan
      then only appends stops closer than Radius. */
  lemma StepAfterNear(es: seq<Entry>)
    requires es != []
    requires FirstNear(es[..|es| - 1]) < |es| - 1
    requires Scan(es[..|es| - 1]) == Expected(es[..|es| - 1])
    ensures Scan(es) == Expected(es)
  {
    var pre := es[..|es| - 1];
    var e := es[|es| - 1];
    NearSnoc(es);
    AnchorSettled(es);
    NearMembers(pre);
    assert pre[FirstNear(pre)] in Near(pre);
    var c := Scan(pre);
    var x := if e.dist < Radius then [e] else [];
    assert c == Anchor(pre) + Near(pre);
    assert c != [];
    if |c| == 1 {
      assert c == Near(pre);
      assert c[0].dist < Radius;
    }
    StepAppends(c, e);
    assert Scan(es) == Step(c, e);
    assert Expected(es) == Anchor(pre) + (Near(pre) + x);
    Assoc(Anchor(pre), Near(pre), x);
  }

  /** A step while the only candidate is the anchor m. */
  lemma StepOnAnchor(m: Entry, e: Entry)
    ensures Step([m], e) ==
      if m.dist > Radius then (if e.dist < m.dist then [e] else [m])
      else if e.dist < Radius then [m, e] else [m]
  {
  }

  /** Before any stop closer than Radius the scan holds just the anchor. */
  lemma ScanBeforeNear(pre: seq<Entry>)
    requires pre != []
    requires forall j :: 0 <= j < |pre| ==> pre[j].dist >= Radius
    requires Scan(pre) == Expected(pre)
    ensures Scan(pre) == [pre[FirstMin(pre)]] && pre[FirstMin(pre)].dist >= Radius
  {
    NearEmpty(pre);
    AnchorBeforeNear(pre);
  }

  /** Inductive step at the first stop closer than Radius: it displaces an
      anchor farther than Radius and joins one lying exactly at Radius. */
  lemma StepAtFirstNear(es: seq<Entry>)
    requires |es| >= 2
    requires forall j :: 0 <= j < |es| - 1 ==> es[j].dist >= Radius
    requires es[|es| - 1].dist < Radius
    requires Scan(es[..|es| - 1]) == Expected(es[..|es| - 1])
    ensures Scan(es) == Expected(es)
  {
    var pre := es[..|es| - 1];
    var e := es[|es| - 1];
    ScanBeforeNear(pre);
    var m := pre[FirstMin(pre)];
    assert Scan(es) == Step([m], e);
    StepOnAnchor(m, e);
    NearSnoc(es);
    NearEmpty(pre);
    assert Near(es) == [e];
    AnchorAtFirstNear(es);
  }

  /** Inductive step at a stop not closer than Radius while none has been
      seen: the anchor becomes the earliest nearest stop so far. */
  lemma StepStillFar(es: seq<Entry>)
    requires |es| >= 2
    requires forall j :: 0 <= j < |es| ==> es[j].dist >= Radius
    requires Scan(es[..|es| - 1]) == Expected(es[..|es| - 1])
    ensures Scan(es) == Expected(es)
  {
    var pre := es[..|es| - 1];
    var e := es[|es| - 1];
    ScanBeforeNear(pre);
    var m := pre[FirstMin(pre)];
    assert Scan(es) == Step([m], e);
    StepOnAnchor(m, e);
    AnchorBeforeNear(es);
    NearEmpty(es);
    var k := FirstMin(es);
    assert es[k] == (if e.dist < m.dist then e else m);
    assert Expected(es) == [es[k]] + [];
  }

  /** Base case: a single stop is the anchor. */
  lemma ScanSingle(e: Entry)
    ensures Scan([e]) == Expected([e])
  {
    assert [e][..0] == [];
    NearSnoc([e]);
    if e.dist < Radius {
      FirstNearIs([e], 0);
    } else {
      AnchorBeforeNear([e]);
    }
  }

  lemma {:induction false} ScanIsExpected(es: seq<Entry>)
    ensures Scan(es) == Expected(es)
    decreases |es|
  {
    if es == [] {
      return;
    }
    var pre := es[..|es| - 1];
    ScanIsExpected(pre);
    if FirstNear(pre) < |pre| {
      StepAfterNear(es);
    } else if pre == [] {
      assert es == [es[0]];
      ScanSingle(es[0]);
    } else {
      assert forall j :: 0 <= j < |es| - 1 ==> es[j] == pre[j];
      if es[|es| - 1].dist < Radius {
        StepAtFirstNear(es);
      } else {
        StepStillFar(es);
      }
    }
  }

  /** When no stop is closer than Radius, the scan keeps exactly one stop: the
      earliest visited among those at minimum distance. */
  lemma NearestOnly(es: seq<Entry>)
    requires es != []
    requires forall j :: 0 <= j < |es| ==> es[j].dist >= Radius
    ensures Scan(es) == [es[FirstMin(es)]]
  {
    ScanIsExpected(es);
    FirstNearIs(es, |es|);
    NearEmpty(es);
    assert es[..|es|] == es;
  }

  /** When some stop is closer than Radius, every such stop is a candidate and
      no candidate is farther than Radius; only the first candidate can lie
      exactly at Radius. */
  lemma WithinRadius(es: seq<Entry>, i: nat)
    requires i < |es| && es[i].dist < Radius
    ensures forall j :: 0 <= j < |es| && es[j].dist < Radius ==> es[j] in Scan(es)
    ensures forall k :: 0 <= k < |Scan(es)| ==> Scan(es)[k].dist <= Radius
    ensures forall k :: 0 < k < |Scan(es)| ==> Scan(es)[k].dist < Radius
  {
    ScanIsExpected(es);
    NearMembers(es);
    var f := FirstNear(es);
    assert f <= i;
    if 0 < f {
      var m := es[FirstMin(es[..f])];
      assert m in es[..f];
      assert m.dist >= Radius;
    }
  }

  /** The anchor at exactly Radius survives beside a closer stop, although the
      view's description promises only stops closer than 3 km. */
  lemma AnchorAtRadiusSurvives()
    ensures var es := [Entry(1, "A", 3.0), Entry(2, "B", 1.0)];
      Scan(es) == es && es[0].dist >= Radius
  {
    var es := [Entry(1, "A", 3.0), Entry(2, "B", 1.0)];
    assert es[..1] == [Entry(1, "A", 3.0)];
    assert es[..1][..0] == [];
  }

  // ---------------------------------------------------------------------------
  // Stable sort by distance
  // ---------------------------------------------------------------------------

  predicate SortedByDist(s: seq<Entry>) {
    forall i, j :: 0 <= i < j < |s| ==> s[i].dist <= s[j].dist
  }

  /** A closest-first list stays sorted when an element no farther than all of
      its elements is put in front. */
  lemma SortedCons(h: Entry, s: seq<Entry>)
    requires SortedByDist(s)
    requires forall y :: y in s ==> h.dist <= y.dist
    ensures SortedByDist([h] + s)
  {
    forall i, j | 0 <= i < j < |[h] + s|
      ensures ([h] + s)[i].dist <= ([h] + s)[j].dist
    {
      if i > 0 {
        assert ([h] + s)[i] == s[i - 1];
      }
      assert ([h] + s)[j] == s[j - 1];
      assert s[j - 1] in s;
    }
  }

  /** Inserts x before the first element that is not closer than x. */
  function Insert(x: Entry, t: seq<Entry>): (r: seq<Entry>)
    ensures multiset(r) == multiset(t) + multiset{x}
    ensures forall y :: y in r ==> y == x || y in t
    ensures SortedByDist(t) ==> SortedByDist(r)
    decreases |t|
  {
    if t == [] || x.dist <= t[0].dist then
      InsertFront(x, t);
      [x] + t
    else
      var rest := Insert(x, t[1..]);
      InsertBehind(x, t, rest);
      [t[0]] + rest
  }

  /** Putting x in front of a list that starts no closer than x. */
  lemma InsertFront(x: Entry, t: seq<Entry>)
    requires t == [] || x.dist <= t[0].dist
    ensures SortedByDist(t) ==> SortedByDist([x] + t)
  {
    if SortedByDist(t) {
      forall y | y in t
        ensures x.dist <= y.dist
      {
        var k :| 0 <= k < |t| && t[k] == y;
      }
      SortedCons(x, t);
    }
  }

  /** Keeping the head of t in front of x inserted into the rest. */
  lemma InsertBehind(x: Entry, t: seq<Entry>, rest: seq<Entry>)
    requires t != [] && t[0].dist < x.dist
    requires multiset(rest) == multiset(t[1..]) + multiset{x}
    requires forall y :: y in rest ==> y == x || y in t[1..]
    requires SortedByDist(t[1..]) ==> SortedByDist(rest)
    ensures multiset([t[0]] + rest) == multiset(t) + multiset{x}
    ensures forall y :: y in [t[0]] + rest ==> y == x || y in t
    ensures SortedByDist(t) ==> SortedByDist([t[0]] + rest)
  {
    assert t == [t[0]] + t[1..];
    if SortedByDist(t) {
      assert SortedByDist(t[1..]) by {
        forall i, j | 0 <= i < j < |t[1..]|
          ensures t[1..][i].dist <= t[1..][j].dist
        {
          assert t[1..][i] == t[i + 1] && t[1..][j] == t[j + 1];
        }
      }
      forall y | y in rest
        ensures t[0].dist <= y.dist
      {
        if y != x {
          var k :| 0 <= k < |t[1..]| && t[1..][k] == y;
          assert t[k + 1] == y;
        }
      }
      SortedCons(t[0], rest);
    }
  }

  /** Insertion sort: ascending by distance, a permutation of its input. */
  function SortByDist(s: seq<Entry>): (r: seq<Entry>)
    ensures multiset(r) == multiset(s)
    ensures SortedByDist(r)
    decreases |s|
  {
    if s == [] then []
    else
      assert s == [s[0]] + s[1..];
      Insert(s[0], SortByDist(s[1..]))
  }

  /** The elements of s at distance exactly d, in order. */
  function AtDist(s: seq<Entry>, d: real): seq<Entry>
    decreases |s|
  {
    if s == [] then [] else (if s[0].dist == d then [s[0]] else []) + AtDist(s[1..], d)
  }

  lemma {:induction false} InsertStable(x: Entry, t: seq<Entry>, d: real)
    ensures AtDist(Insert(x, t), d) == (if x.dist == d then [x] else []) + AtDist(t, d)
    decreases |t|
  {
    if t == [] || x.dist <= t[0].dist {
      assert ([x] + t)[1..] == t;
    } else {
      var rest := Insert(x, t[1..]);
      InsertStable(x, t[1..], d);
      assert ([t[0]] + rest)[1..] == rest;
    }
  }

  /** Stability: among stops at equal distance the visiting order is kept. */
  lemma {:induction false} SortStable(s: seq<Entry>, d: real)
    ensures AtDist(SortByDist(s), d) == AtDist(s, d)
    decreases |s|
  {
    if s != [] {
      SortStable(s[1..], d);
      InsertStable(s[0], SortByDist(s[1..]), d);
    }
  }

  // ---------------------------------------------------------------------------
  // The reported list
  // ---------------------------------------------------------------------------

  /** How many candidates the view prints: all of them under ten, else ten. */
  function ShownCount(size: nat): (c: nat)
    ensures c <= size && c <= MaxShown
    ensures c == size || c == MaxShown
  {
    if size < MaxShown then size else MaxShown
  }

  /** The stops reported for the query point, nearest first. */
  function NearbyStops(es: seq<Entry>): (r: seq<Entry>)
    ensures |r| <= MaxShown
    ensures |r| == ShownCount(|Scan(es)|)
    ensures SortedByDist(r)
    ensures es == [] <==> r == []
    ensures forall x :: x in r ==> x in Scan(es) && x in es
    ensures multiset(r) <= multiset(Scan(es))
    ensures r == SortByDist(Scan(es))[..ShownCount(|Scan(es)|)]
  {
    var nearby := Scan(es);
    var sorted := SortByDist(nearby);
    ScanMembers(es);
    assert |sorted| == |multiset(sorted)| == |nearby|;
    var r := sorted[..ShownCount(|nearby|)];
    PrefixWithin(sorted, |r|);
    SortKeepsMembers(nearby);
    r
  }

  /** Sorting neither adds nor drops an entry. */
  lemma SortKeepsMembers(s: seq<Entry>)
    ensures forall x :: x in SortByDist(s) ==> x in s
  {
    forall x | x in SortByDist(s)
      ensures x in s
    {
      assert x in multiset(SortByDist(s));
    }
  }

  /** A prefix of a sorted sequence is sorted, and takes each element at most
      as often as the whole sequence. */
  lemma PrefixWithin(s: seq<Entry>, n: nat)
    requires n <= |s| && SortedByDist(s)
    ensures SortedByDist(s[..n])
    ensures multiset(s[..n]) <= multiset(s)
    ensures forall x :: x in s[..n] ==> x in s
  {
    assert s == s[..n] + s[n..];
  }

  /** The report is the first entries of the stable sort of the candidates, so
      a nearby stop left out of it is no closer than any stop shown, and is
      left out only because ten stops are already shown. */
  lemma NearbyShowsClosest(es: seq<Entry>, i: nat)
    requires i < |es| && es[i].dist < Radius
    ensures es[i] !in NearbyStops(es) ==>
      |NearbyStops(es)| == MaxShown && forall y :: y in NearbyStops(es) ==> y.dist <= es[i].dist
  {
    WithinRadius(es, i);
    var nearby := Scan(es);
    var sorted := SortByDist(nearby);
    var r := NearbyStops(es);
    assert |sorted| == |multiset(sorted)| == |nearby|;
    assert r == sorted[..ShownCount(|nearby|)];
    assert es[i] in multiset(sorted);
    var j :| 0 <= j < |sorted| && sorted[j] == es[i];
    if es[i] !in r {
      assert j >= |r|;
      forall y | y in r
        ensures y.dist <= es[i].dist
      {
        var k :| 0 <= k < |r| && r[k] == y;
        assert sorted[k] == y;
      }
    }
  }

  /** When some stop is closer than Radius, no reported stop is farther than
      Radius, and only the earliest visited of them can lie exactly at it. */
  lemma NearbyWithinRadius(es: seq<Entry>, i: nat)
    requires i < |es| && es[i].dist < Radius
    ensures forall x :: x in NearbyStops(es) ==> x.dist <= Radius
    ensures forall x :: x in NearbyStops(es) && x.dist == Radius ==> x == Scan(es)[0]
  {
    WithinRadius(es, i);
    forall x | x in NearbyStops(es)
      ensures x.dist <= Radius && (x.dist == Radius ==> x == Scan(es)[0])
    {
      var k :| 0 <= k < |Scan(es)| && Scan(es)[k] == x;
    }
  }

  /** When no stop is closer than Radius the report is the single nearest stop. */
  lemma NearbyReportsNearest(es: seq<Entry>)
    requires es != []
    requires forall j :: 0 <= j < |es| ==> es[j].dist >= Radius
    ensures NearbyStops(es) == [es[FirstMin(es)]]
  {
    NearestOnly(es);
    var one := [es[FirstMin(es)]];
    assert SortByDist(one) == Insert(one[0], SortByDist([]));
  }

  /** Stops at 1 km and 5 km, in either order: only the 1 km stop is reported. */
  lemma NearAndFarPair(a: Entry, b: Entry)
    requires a.dist == 1.0 && b.dist == 5.0
    ensures NearbyStops([a, b]) == [a] && NearbyStops([b, a]) == [a]
  {
    assert [a, b][..1] == [a];
    assert [b, a][..1] == [b];
    assert Scan([a, b]) == [a];
    assert Scan([b, a]) == [a];
    assert SortByDist([a]) == [a];
  }
}
