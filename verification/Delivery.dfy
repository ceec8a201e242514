/** An uploaded route from its first byte to the stream: whatever else goes on, every publication of the
    session shows a point of the route, both of whose lines the hardware test looks for. */
module Delivery {
  import opened Nmea
  import opened Framing
  import opened MockRoute
  import opened Protocol
  import opened Switching
  import opened Windows
  import opened Publications
  import opened GnssRuns
  import opened Uploads
  import opened RouteUploads

  // ---------------------------------------------------------------- older bytes

  predicate OlderSegments(segs: seq<Segment>, gen: nat) {
    forall k :: 0 <= k < |segs| ==> segs[k].gen <= gen
  }

  lemma GenGrows(s: State, a: Action)
    requires Core(s) && Enabled(s, a)
    ensures s.gen <= Apply(s, a).gen
  {
    match a
    case OverrideFeed(data) => FeedKeepsBooks(s, data);
    case UartFeed(data) => FeedKeepsBooks(s, data);
    case FilterStep => FilterKeepsHistory(s);
    case _ =>
  }

  lemma OwnedKeepsOlder(s: State, a: Action, t: State)
    requires Owned(s, a, t) && OlderSegments(s.segs, s.gen) && s.gen <= t.gen
    ensures OlderSegments(t.segs, t.gen)
  {
    var n := |s.segs| - 1;
    forall k | 0 <= k < |t.segs| ensures t.segs[k].gen <= t.gen {
      if k < n {
        assert t.segs[..n][k] == s.segs[..n][k];
      }
    }
  }

  /** No bytes are of a generation that has not begun. */
  lemma {:induction false} AlwaysOlder(acts: seq<Action>, s: State)
    requires After(acts) == Some(s)
    ensures OlderSegments(s.segs, s.gen)
  {
    if acts == [] {
    } else {
      var before, a := LastStep(acts, s);
      AlwaysOlder(acts[..|acts| - 1], before);
      AlwaysCore(acts[..|acts| - 1], before);
      OnlyTheOwnerFeeds(acts[..|acts| - 1], before, a);
      GenGrows(before, a);
      OwnedKeepsOlder(before, a, s);
    }
  }

  // ---------------------------------------------------------------- after the last feed

  predicate Unfinished(acts: seq<Action>) {
    forall i :: 0 <= i < |acts| ==> !acts[i].EndFinish?
  }

  /** The session that is closing at s is still closing at t, and no candidate has been parsed since. */
  ghost predicate Shut(s: State, t: State) {
    && t.active && t.closing && t.gen == s.gen && |s.segs| <= |t.segs| && t.segs[..|s.segs|] == s.segs
    && forall k :: |s.segs| <= k < |t.segs| ==> t.segs[k].out == []
  }

  lemma ShutStep(s: State, a: Action)
    requires Core(s) && s.active && s.closing && Enabled(s, a) && !a.EndFinish?
    ensures Shut(s, Apply(s, a))
  {
    match a
    case FilterStep =>
      FilterKeepsHistory(s);
      FilterKeepsFlags(s);
    case _ =>
  }

  lemma ShutOn(s: State, t: State, u: State)
    requires Shut(s, t) && Shut(t, u)
    ensures Shut(s, u)
  {
    forall k | |s.segs| <= k < |u.segs| ensures u.segs[k].out == [] {
      if k < |t.segs| {
        assert u.segs[..|t.segs|][k] == t.segs[k];
      }
    }
    assert u.segs[..|s.segs|] == u.segs[..|t.segs|][..|s.segs|];
  }

  lemma {:induction false} StaysShut(acts: seq<Action>, s: State, more: seq<Action>, t: State)
    requires After(acts) == Some(s) && s.active && s.closing && After(acts + more) == Some(t) && Unfinished(more)
    ensures Shut(s, t)
    decreases |more|
  {
    if more == [] {
      assert acts + more == acts;
    } else {
      var u := BeforeLast(acts, more, t);
      StaysShut(acts, s, more[..|more| - 1], u);
      AlwaysCore(acts + more[..|more| - 1], u);
      ShutStep(u, more[|more| - 1]);
      ShutOn(s, u, t);
    }
  }

  // ---------------------------------------------------------------- what is parsed

  /** The pair is a point's. */
  ghost predicate OfRoute(x: Pair, points: seq<Point>) {
    exists p :: p in points && GoodPoint(p) && x == PairOf(p)
  }

  ghost predicate AllOfRoute(out: seq<Pair>, points: seq<Point>) {
    forall n :: 0 <= n < |out| ==> OfRoute(out[n], points)
  }

  lemma OneOfRoute(out: seq<Pair>, p: Point, points: seq<Point>)
    requires AllOfRoute(out, points) && p in points && GoodPoint(p)
    ensures AllOfRoute(out + [PairOf(p)], points)
  {
    assert OfRoute(PairOf(p), points);
  }

  predicate Within(part: seq<Point>, points: seq<Point>) {
    forall i :: 0 <= i < |part| ==> part[i] in points
  }

  /** The candidates of some of the points are of the route. */
  lemma {:induction false} PairsAreOfRoute(part: seq<Point>, points: seq<Point>)
    requires AllGood(part) && Within(part, points)
    ensures AllOfRoute(Pairs(part), points)
    decreases |part|
  {
    if part == [] {
    } else {
      var init, p := LastPoint(part);
      assert part[|init|] == p && forall i :: 0 <= i < |init| ==> init[i] == part[i];
      PairsAreOfRoute(init, points);
      PairsAppend(init, p);
      OneOfRoute(Pairs(init), p, points);
    }
  }

  /** The segments from the k-th on have given candidates of the route alone. */
  ghost predicate Carries(segs: seq<Segment>, k: nat, points: seq<Point>) {
    forall j :: k <= j < |segs| ==> AllOfRoute(segs[j].out, points)
  }

  /** The candidates are those of some of the points. */
  ghost predicate GivenBy(out: seq<Pair>, part: seq<Point>, points: seq<Point>) {
    AllGood(part) && Within(part, points) && out == Pairs(part)
  }

  lemma GivenIsOfRoute(out: seq<Pair>, part: seq<Point>, points: seq<Point>)
    requires GivenBy(out, part, points)
    ensures AllOfRoute(out, points)
  {
    PairsAreOfRoute(part, points);
  }

  lemma PartIsGood(points: seq<Point>, lo: nat, hi: nat)
    requires AllGood(points) && lo <= hi <= |points|
    ensures AllGood(points[lo..hi]) && Within(points[lo..hi], points)
  {}

  /** What a reset leaves of the route on either side of it. */
  lemma CutFirst(t: State, k: nat, points: seq<Point>, i: nat, m: nat)
    requires AllGood(points) && Arrived(t, k, points, true, i, m)
    ensures |t.segs| == k + 2 && GivenBy(t.segs[k].out, points[..i], points)
  {
    PartIsGood(points, 0, i);
  }

  lemma CutSecond(t: State, k: nat, points: seq<Point>, i: nat, m: nat)
    requires AllGood(points) && Arrived(t, k, points, true, i, m)
    ensures |t.segs| == k + 2 && GivenBy(t.segs[k + 1].out, points[if m == 0 then i else i + 1..], points)
  {
    PartIsGood(points, if m == 0 then i else i + 1, |points|);
  }

  lemma CutCarries(t: State, k: nat, points: seq<Point>, i: nat, m: nat)
    requires AllGood(points) && Arrived(t, k, points, true, i, m)
    ensures Carries(t.segs, k, points)
  {
    CutFirst(t, k, points, i, m);
    CutSecond(t, k, points, i, m);
    TwoGiven(t.segs, k, points[..i], points[if m == 0 then i else i + 1..], points);
  }

  lemma TwoGiven(segs: seq<Segment>, k: nat, a: seq<Point>, b: seq<Point>, points: seq<Point>)
    requires |segs| == k + 2 && GivenBy(segs[k].out, a, points) && GivenBy(segs[k + 1].out, b, points)
    ensures Carries(segs, k, points)
  {
    GivenIsOfRoute(segs[k].out, a, points);
    GivenIsOfRoute(segs[k + 1].out, b, points);
    TwoAreAll(segs, k, points);
  }

  lemma TwoAreAll(segs: seq<Segment>, k: nat, points: seq<Point>)
    requires |segs| == k + 2 && AllOfRoute(segs[k].out, points) && AllOfRoute(segs[k + 1].out, points)
    ensures Carries(segs, k, points)
  {}

  lemma OneIsAll(segs: seq<Segment>, k: nat, points: seq<Point>)
    requires |segs| == k + 1 && AllOfRoute(segs[k].out, points)
    ensures Carries(segs, k, points)
  {}

  lemma WholePart(t: State, k: nat, points: seq<Point>)
    requires AllGood(points) && Arrived(t, k, points, false, 0, 0)
    ensures |t.segs| == k + 1 && GivenBy(t.segs[k].out, points, points)
  {}

  lemma OneGiven(segs: seq<Segment>, k: nat, points: seq<Point>)
    requires |segs| == k + 1 && GivenBy(segs[k].out, points, points)
    ensures Carries(segs, k, points)
  {
    GivenIsOfRoute(segs[k].out, points, points);
    OneIsAll(segs, k, points);
  }

  lemma WholeCarries(t: State, k: nat, points: seq<Point>)
    requires AllGood(points) && Arrived(t, k, points, false, 0, 0)
    ensures Carries(t.segs, k, points)
  {
    WholePart(t, k, points);
    OneGiven(t.segs, k, points);
  }

  lemma ArrivedCarries(t: State, k: nat, points: seq<Point>, cut: bool, i: nat, m: nat)
    requires AllGood(points) && Arrived(t, k, points, cut, i, m)
    ensures Carries(t.segs, k, points)
  {
    if cut {
      CutCarries(t, k, points, i, m);
    } else {
      WholeCarries(t, k, points);
    }
  }

  lemma ShutCarries(s: State, t: State, k: nat, points: seq<Point>)
    requires Shut(s, t) && k <= |s.segs| && Carries(s.segs, k, points)
    ensures Carries(t.segs, k, points)
  {
    forall j | k <= j < |t.segs| ensures AllOfRoute(t.segs[j].out, points) {
      if j < |s.segs| {
        assert t.segs[..|s.segs|][j] == s.segs[j];
      }
    }
  }

  // ---------------------------------------------------------------- what is streamed

  /** An upload of the route up and past its close: what was there before it, and what it has given. */
  ghost predicate OneUpload(s: State, t: State, points: seq<Point>) {
    && t.gen == s.gen + 1 && |s.segs| <= |t.segs| && t.segs[..|s.segs|] == s.segs && OlderSegments(s.segs, s.gen)
    && Carries(t.segs, |s.segs|, points)
  }

  lemma OpenUpload(acts: seq<Action>, s: State, up: seq<Action>, v: State, points: seq<Point>)
    requires After(acts) == Some(s) && !s.active && After(acts + [Begin] + up) == Some(v) && OpenThroughout(up)
    requires AllGood(points) && Uploaded(up) == Body(points)
    ensures OneUpload(s, v, points) && v.active && !v.closing
  {
    SessionIsFedWhole(acts, s, up, v);
    AlwaysOlder(acts, s);
    var i, m := RouteUpload(acts, s, up, v, points);
    ArrivedCarries(v, |s.segs|, points, Resets(up) == 1, i, m);
  }

  lemma ShutUpload(s: State, v: State, t: State, points: seq<Point>)
    requires OneUpload(s, v, points) && Shut(v, t)
    ensures OneUpload(s, t, points)
  {
    ShutCarries(v, t, |s.segs|, points);
    assert t.segs[..|s.segs|] == t.segs[..|v.segs|][..|s.segs|];
  }

  /** From its close on, until its end. */
  lemma ShutFrom(all: seq<Action>, v: State, rest: seq<Action>, t: State)
    requires After(all) == Some(v) && v.active && After(all + rest) == Some(t)
    requires rest != [] && rest[0].EndClose? && Unfinished(rest)
    ensures Shut(v, t)
  {
    var w := Closes(all, v, rest, t);
    FirstApart(all, rest);
    StaysShut(all + [rest[0]], w, rest[1..], t);
  }

  lemma FirstApart<T>(a: seq<T>, b: seq<T>)
    requires b != []
    ensures a + b == (a + [b[0]]) + b[1..] && (a + [b[0]])[..|a|] == a && b[..1] == [b[0]]
  {}

  lemma Closes(all: seq<Action>, v: State, rest: seq<Action>, t: State) returns (w: State)
    requires After(all) == Some(v) && v.active && After(all + rest) == Some(t)
    requires rest != [] && rest[0].EndClose?
    ensures After(all + [rest[0]]) == Some(w) && w.active && w.closing && w.gen == v.gen && w.segs == v.segs
  {
    w := PartOfRun(all, rest, t, 1);
    FirstApart(all, rest);
    var before, a := LastStep(all + [rest[0]], w);
    ShutNow(before, a);
  }

  lemma ShutNow(s: State, a: Action)
    requires s.segs != [] && s.active && a.EndClose? && Enabled(s, a)
    ensures var t := Apply(s, a); t.active && t.closing && t.gen == s.gen && t.segs == s.segs
  {}

  lemma ReachesUpload(acts: seq<Action>, s: State, up: seq<Action>, rest: seq<Action>, t: State, points: seq<Point>)
    requires After(acts) == Some(s) && !s.active && After(acts + [Begin] + up + rest) == Some(t)
    requires OpenThroughout(up) && rest != [] && rest[0].EndClose? && Unfinished(rest)
    requires AllGood(points) && Uploaded(up) == Body(points)
    ensures OneUpload(s, t, points)
  {
    var v := BeforeRest(acts + [Begin] + up, rest, t);
    OpenUpload(acts, s, up, v, points);
    ShutFrom(acts + [Begin] + up, v, rest, t);
    ShutUpload(s, v, t, points);
  }

  lemma BeforeRest(all: seq<Action>, rest: seq<Action>, t: State) returns (v: State)
    requires After(all + rest) == Some(t)
    ensures After(all) == Some(v)
  {
    v := PartOfRun(all, rest, t, 0);
    assert all + rest[..0] == all;
  }

  /** The publication shows a point of the route, and its lines are among those looked for. */
  predicate ShowsPoint(p: Publication, points: seq<Point>, i: nat)
    requires AllGood(points)
  {
    i < |points| && p.data == Chunk(points[i]) && Lines(points[i]) <= Expected(points)
  }

  lemma OlderThanUpload(s: State, t: State, points: seq<Point>)
    requires OneUpload(s, t, points)
    ensures forall k :: 0 <= k < |s.segs| ==> t.segs[k].gen < t.gen
  {
    forall k | 0 <= k < |s.segs| ensures t.segs[k].gen < t.gen {
      assert t.segs[..|s.segs|][k] == s.segs[k];
    }
  }

  lemma WinnerIsOfRoute(s: State, t: State, points: seq<Point>, c: Candidate)
    requires OneUpload(s, t, points) && Sourced(t.segs, c) && c.gen == t.gen
    ensures OfRoute(c.pair, points)
  {
    OlderThanUpload(s, t, points);
    assert AllOfRoute(t.segs[c.seg].out, points);
  }

  lemma PubIsOfRoute(s: State, t: State, points: seq<Point>, r: nat) returns (i: nat)
    requires AllGood(points) && OneUpload(s, t, points) && InvSource(t) && r < |t.pubs| && GoodRecord(t.pubs[r], r)
    requires t.pubs[r].winner.gen == t.gen
    ensures ShowsPoint(t.pubs[r].publication, points, i)
  {
    var c := t.pubs[r].winner;
    assert AllIn(t.pubs[r].window, t.accepted) && c in t.accepted;
    var j :| 0 <= j < |t.accepted| && t.accepted[j] == c;
    WinnerIsOfRoute(s, t, points, c);
    i := PointOf(c.pair, points);
  }

  lemma PointOf(x: Pair, points: seq<Point>) returns (i: nat)
    requires AllGood(points) && OfRoute(x, points)
    ensures i < |points| && x == PairOf(points[i]) && Lines(points[i]) <= Expected(points)
  {
    var p :| p in points && GoodPoint(p) && x == PairOf(p);
    i :| 0 <= i < |points| && points[i] == p;
    ExpectedHas(points, i);
  }

  /** Once a route has been uploaded, in any pieces and among whatever the other tasks do, everything that
      is published of the session up to its end shows a point of the route, with lines that the test
      looks for. */
  lemma StreamedIsExpected(acts: seq<Action>, s: State, up: seq<Action>, rest: seq<Action>, t: State,
      points: seq<Point>, r: nat) returns (i: nat)
    requires After(acts) == Some(s) && !s.active && After(acts + [Begin] + up + rest) == Some(t)
    requires OpenThroughout(up) && rest != [] && rest[0].EndClose? && Unfinished(rest)
    requires AllGood(points) && Uploaded(up) == Body(points)
    requires r < |t.pubs| && t.pubs[r].winner.gen == t.gen
    ensures t.gen == s.gen + 1 && ShowsPoint(t.pubs[r].publication, points, i)
  {
    ReachesUpload(acts, s, up, rest, t, points);
    AlwaysRecords(acts + [Begin] + up + rest, t);
    i := PubIsOfRoute(s, t, points, r);
  }

  /** And when the session ends there is such a publication, if the queue had room for any candidate. */
  lemma ExpectedIsStreamed(acts: seq<Action>, s: State, up: seq<Action>, rest: seq<Action>, t: State,
      points: seq<Point>, id: nat) returns (r: nat, i: nat)
    requires After(acts) == Some(s) && !s.active && After(acts + [Begin] + up + rest) == Some(t)
    requires OpenThroughout(up) && rest != [] && rest[0].EndClose? && Unfinished(rest)
    requires AllGood(points) && Uploaded(up) == Body(points)
    requires Enabled(t, EndFinish(id)) && Of(t.accepted, t.gen) != []
    ensures r < |t.pubs| && t.pubs[r].winner.gen == t.gen == s.gen + 1 && ShowsPoint(t.pubs[r].publication, points, i)
  {
    var c := Of(t.accepted, t.gen)[0];
    r := EveryUploadIsAnswered(acts + [Begin] + up + rest, t, id, c);
    i := StreamedIsExpected(acts, s, up, rest, t, points, r);
  }
}
