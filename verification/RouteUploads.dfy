/** A route of points uploaded while everything else goes on: what arrives, and what the one reset of
    gnss_init_task costs when it falls into the upload. */
module RouteUploads {
  import opened Nmea
  import opened Basics
  import opened Framing
  import opened MockRoute
  import opened Protocol
  import opened Publications
  import opened GnssRuns
  import opened Uploads

  // ---------------------------------------------------------------- a route cut in two

  function Body(points: seq<Point>): seq<byte>
    requires AllGood(points)
  {
    Flat(Chunks(points))
  }

  /** The n-th byte of the route is byte m of point i, or n is the end of the route. */
  predicate CutAt(points: seq<Point>, n: nat, i: nat, m: nat)
    requires AllGood(points)
  {
    i <= |points| && n == |Body(points[..i])| + m && (m > 0 ==> i < |points| && m < |Chunk(points[i])|)
  }

  /** The parser, reset between the bytes a and b of the route and before byte m of point i, gives the
      candidates of every point but the one that the cut goes through. */
  ghost predicate Survive(points: seq<Point>, a: seq<byte>, b: seq<byte>, i: nat, m: nat)
    requires AllGood(points)
  {
    && CutAt(points, |a|, i, m)
    && Emitted(a) == Pairs(points[..i]) && Emitted(b) == Pairs(points[if m == 0 then i else i + 1..])
  }

  /** A reset between two bytes of a route loses the point it falls strictly inside and no other, and
      none at all when it falls between two points. */
  lemma {:induction false} CutExactly(points: seq<Point>, a: seq<byte>, b: seq<byte>) returns (i: nat, m: nat)
    requires AllGood(points) && a + b == Body(points)
    ensures Survive(points, a, b, i, m)
    decreases |points|, 1
  {
    if b == [] {
      i, m := |points|, 0;
      assert a == Body(points);
      NoCut(points);
    } else {
      NoBody();
      var init, p := LastPoint(points);
      i, m := CutNotLast(init, p, a, b);
    }
  }

  lemma NoBody()
    ensures Body([]) == []
  {}

  lemma LastPoint(points: seq<Point>) returns (init: seq<Point>, p: Point)
    requires AllGood(points) && points != []
    ensures AllGood(init) && GoodPoint(p) && points == init + [p] && Body(points) == Body(init) + Chunk(p)
  {
    init, p := points[..|points| - 1], points[|points| - 1];
    assert points == init + [p];
    BodyAppend(init, p);
  }

  lemma {:induction false} CutNotLast(init: seq<Point>, p: Point, a: seq<byte>, b: seq<byte>) returns (i: nat, m: nat)
    requires AllGood(init) && GoodPoint(p) && a + b == Body(init) + Chunk(p) && b != []
    ensures AllGood(init + [p]) && Survive(init + [p], a, b, i, m)
    decreases |init| + 1, 0
  {
    if |b| >= |Chunk(p)| {
      var b' := SplitLater(a, b, Body(init), Chunk(p));
      i, m := CutExactly(init, a, b');
      CutEarlier(init, p, a, b', i, m);
    } else {
      i, m := |init|, |Chunk(p)| - |b|;
      CutWithin(init, p, a, b, m);
    }
  }

  lemma CutWithin(init: seq<Point>, p: Point, a: seq<byte>, b: seq<byte>, m: nat)
    requires AllGood(init) && GoodPoint(p) && a + b == Body(init) + Chunk(p) && b != [] && m == |Chunk(p)| - |b| > 0
    ensures AllGood(init + [p]) && Survive(init + [p], a, b, |init|, m)
  {
    CutInLast(init, p, m);
    SplitEarlier(a, b, Body(init), Chunk(p), m);
  }

  lemma SplitLater<T>(a: seq<T>, b: seq<T>, x: seq<T>, y: seq<T>) returns (c: seq<T>)
    requires a + b == x + y && |b| >= |y|
    ensures b == c + y && a + c == x
  {
    c := b[..|b| - |y|];
    assert (a + b)[..|x|] == x && (a + b)[|x|..] == y;
  }

  lemma SplitEarlier<T>(a: seq<T>, b: seq<T>, x: seq<T>, y: seq<T>, m: nat)
    requires a + b == x + y && m + |b| == |y|
    ensures a == x + y[..m] && b == y[m..]
  {
    assert (a + b)[..|a|] == a && (a + b)[|a|..] == b;
  }

  lemma BodyAppend(init: seq<Point>, p: Point)
    requires AllGood(init) && GoodPoint(p)
    ensures AllGood(init + [p]) && Body(init + [p]) == Body(init) + Chunk(p)
  {
    assert (init + [p])[..|init|] == init;
    var c := Chunks(init) + [Chunk(p)];
    assert c[..|c| - 1] == Chunks(init);
  }

  lemma PairsAppend(init: seq<Point>, p: Point)
    requires AllGood(init) && GoodPoint(p)
    ensures AllGood(init + [p]) && Pairs(init + [p]) == Pairs(init) + [PairOf(p)]
  {
    assert (init + [p])[..|init|] == init;
  }

  lemma DropAppend<T>(s: seq<T>, x: T, j: nat)
    requires j <= |s|
    ensures (s + [x])[j..] == s[j..] + [x] && (s + [x])[..j] == s[..j]
  {}

  lemma CutEarlier(init: seq<Point>, p: Point, a: seq<byte>, b: seq<byte>, i: nat, m: nat)
    requires AllGood(init) && GoodPoint(p) && Survive(init, a, b, i, m)
    ensures AllGood(init + [p]) && Survive(init + [p], a, b + Chunk(p), i, m)
  {
    var j := if m == 0 then i else i + 1;
    CutAtEarlier(init, p, |a|, i, m);
    DropAppend(init, p, j);
    PairsAppend(init[j..], p);
    ChunkArrives(b, p);
  }

  lemma CutAtEarlier(init: seq<Point>, p: Point, n: nat, i: nat, m: nat)
    requires AllGood(init) && GoodPoint(p) && CutAt(init, n, i, m)
    ensures AllGood(init + [p]) && CutAt(init + [p], n, i, m) && (init + [p])[..i] == init[..i]
  {
    DropAppend(init, p, i);
  }

  lemma BodyArrives(points: seq<Point>)
    requires AllGood(points)
    ensures Emitted(Body(points)) == Pairs(points)
  {
    RouteArrives([], points);
    NothingFed();
    assert [] + Body(points) == Body(points);
  }

  lemma NoCut(points: seq<Point>)
    requires AllGood(points)
    ensures Survive(points, Body(points), [], |points|, 0)
  {
    BodyArrives(points);
    NothingFed();
    assert points[..|points|] == points && points[|points|..] == [];
  }

  lemma CutInLast(init: seq<Point>, p: Point, m: nat)
    requires AllGood(init) && GoodPoint(p) && 0 < m < |Chunk(p)|
    ensures AllGood(init + [p]) && Survive(init + [p], Body(init) + Chunk(p)[..m], Chunk(p)[m..], |init|, m)
  {
    var points := init + [p];
    assert points[..|init|] == init && points[|init| + 1..] == [];
    BodyArrives(init);
    HeadEmitsNothing(Body(init), p, m);
    TailEmitsNothing(p, m);
  }

  // ---------------------------------------------------------------- the upload

  /** Segments k and on of t are one upload of the route: in one piece, or cut by the init task before
      byte m of point i. */
  ghost predicate Arrived(t: State, k: nat, points: seq<Point>, cut: bool, i: nat, m: nat)
    requires AllGood(points)
  {
    if !cut then |t.segs| == k + 1 && t.segs[k].bytes == Body(points) && t.segs[k].out == Pairs(points)
    else
      && |t.segs| == k + 2 && t.segs[k].bytes + t.segs[k + 1].bytes == Body(points)
      && CutAt(points, |t.segs[k].bytes|, i, m)
      && t.segs[k].out == Pairs(points[..i]) && t.segs[k + 1].out == Pairs(points[if m == 0 then i else i + 1..])
  }

  /** A route uploaded in any pieces, among whatever the other tasks do, is parsed into its points'
      candidates; if the init task resets the parser meanwhile, it loses the point the reset falls
      strictly inside, and no other. */
  lemma RouteUpload(acts: seq<Action>, s: State, more: seq<Action>, t: State, points: seq<Point>)
      returns (i: nat, m: nat)
    requires After(acts) == Some(s) && !s.active && After(acts + [Begin] + more) == Some(t) && OpenThroughout(more)
    requires AllGood(points) && Uploaded(more) == Body(points)
    ensures Resets(more) <= 1 && t.active && t.gen == s.gen + 1
    ensures Arrived(t, |s.segs|, points, Resets(more) == 1, i, m)
  {
    SessionIsFedWhole(acts, s, more, t);
    AlwaysRecords(acts + [Begin] + more, t);
    i, m := Arrives(t, |s.segs|, points, Resets(more) == 1);
  }

  lemma Arrives(t: State, k: nat, points: seq<Point>, cut: bool) returns (i: nat, m: nat)
    requires AllGood(points) && Parsed(t.segs) && |t.segs| == k + (if cut then 2 else 1) && Stretch(t.segs, k) == Body(points)
    ensures Arrived(t, k, points, cut, i, m)
  {
    if cut {
      StretchTwo(t.segs, k);
      i, m := CutExactly(points, t.segs[k].bytes, t.segs[k + 1].bytes);
    } else {
      StretchOne(t.segs, k);
      BodyArrives(points);
      i, m := 0, 0;
    }
  }

  // ---------------------------------------------------------------- a run

  /** A feed that completes no candidate. */
  lemma SilentFeed(s: State, data: seq<byte>)
    requires s.segs != [] && s.segs[|s.segs| - 1].out == [] && Emitted(s.segs[|s.segs| - 1].bytes + data) == []
    ensures var seg := s.segs[|s.segs| - 1];
            Feed(s, data) == s.(segs := s.segs[|s.segs| - 1 := Segment(seg.gen, seg.bytes + data, [])])
  {}

  /** An override has begun in the initial state. */
  function Begun(segs: seq<Segment>, initDone: bool): State {
    INITIAL.(active := true, epoch := 2, gen := 1, segs := [Segment(0, [], [])] + segs, initDone := initDone)
  }

  lemma Started()
    ensures After([Begin]) == Some(Begun([Segment(1, [], [])], false))
  {
    var none: seq<Action> := [];
    Then(none, INITIAL, Begin);
    assert none + [Begin] == [Begin];
    assert Apply(INITIAL, Begin) == Begun([Segment(1, [], [])], false);
  }

  lemma FirstHalf(a: seq<byte>)
    requires Emitted(a) == []
    ensures After([Begin, OverrideFeed(a)]) == Some(Begun([Segment(1, a, [])], false))
  {
    var s := Begun([Segment(1, [], [])], false);
    Started();
    assert s.segs[1 := Segment(1, a, [])] == Begun([Segment(1, a, [])], false).segs && [] + a == a;
    SilentFeed(s, a);
    Then([Begin], s, OverrideFeed(a));
    assert [Begin] + [OverrideFeed(a)] == [Begin, OverrideFeed(a)];
  }

  lemma SecondHalf(acts: seq<Action>, a: seq<byte>, b: seq<byte>)
    requires Emitted(b) == [] && After(acts) == Some(Begun([Segment(1, a, [])], false))
    ensures After(acts + [InitReset] + [OverrideFeed(b)]) == Some(Begun([Segment(1, a, []), Segment(1, b, [])], true))
  {
    var s, t := Begun([Segment(1, a, []), Segment(1, [], [])], true), Begun([Segment(1, a, []), Segment(1, b, [])], true);
    Then(acts, Begun([Segment(1, a, [])], false), InitReset);
    assert Begun([Segment(1, a, [])], false).segs + [Segment(1, [], [])] == s.segs;
    assert s.segs[2 := Segment(1, b, [])] == t.segs && [] + b == b;
    SilentFeed(s, b);
    Then(acts + [InitReset], s, OverrideFeed(b));
  }

  /** An upload of a and b with the init task's reset in between. */
  function Interrupted(a: seq<byte>, b: seq<byte>): seq<Action> {
    [Begin, OverrideFeed(a)] + [InitReset] + [OverrideFeed(b)]
  }

  lemma InterruptedIsWhole(a: seq<byte>, b: seq<byte>)
    ensures OpenThroughout(Interrupted(a, b)) && Uploaded(Interrupted(a, b)) == a + b
  {
    var w, x := [Begin, OverrideFeed(a)], [Begin, OverrideFeed(a)] + [InitReset];
    var y := x + [OverrideFeed(b)];
    assert y == [Begin, OverrideFeed(a), InitReset, OverrideFeed(b)];
    assert w[..1] == [Begin] && [Begin][..0] == [] && x[..2] == w && y[..3] == x;
    assert Uploaded([Begin]) == [] && Uploaded(w) == [] + a == a && Uploaded(x) == a + [] == a;
  }

  lemma SilentRun(a: seq<byte>, b: seq<byte>) returns (t: State)
    requires Emitted(a) == [] && Emitted(b) == []
    ensures After(Interrupted(a, b)) == Some(t)
    ensures t.active && !t.closing && t.accepted == [] && forall k :: 0 <= k < |t.segs| ==> t.segs[k].out == []
  {
    FirstHalf(a);
    SecondHalf([Begin, OverrideFeed(a)], a, b);
    t := Begun([Segment(1, a, []), Segment(1, b, [])], true);
  }

  lemma HeadIsSilent(p: Point, m: nat)
    requires GoodPoint(p) && m < |Chunk(p)|
    ensures Emitted(Chunk(p)[..m]) == []
  {
    HeadEmitsNothing([], p, m);
    NothingFed();
    NothingBefore(Chunk(p)[..m]);
  }

  /** Any point, uploaded whole in two feeds with the init task's reset in between, gives no candidate,
      wherever the point is cut. */
  lemma LossyRun(p: Point, m: nat) returns (a: seq<byte>, b: seq<byte>, t: State)
    requires GoodPoint(p) && 0 < m < |Chunk(p)|
    ensures a == Chunk(p)[..m] && b == Chunk(p)[m..] && After(Interrupted(a, b)) == Some(t)
    ensures OpenThroughout(Interrupted(a, b)) && Uploaded(Interrupted(a, b)) == Chunk(p)
    ensures t.active && !t.closing && t.accepted == [] && forall k :: 0 <= k < |t.segs| ==> t.segs[k].out == []
  {
    a, b := Chunk(p)[..m], Chunk(p)[m..];
    assert a + b == Chunk(p);
    HeadIsSilent(p, m);
    TailEmitsNothing(p, m);
    InterruptedIsWhole(a, b);
    t := SilentRun(a, b);
  }
}
