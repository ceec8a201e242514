/** What the parser is fed while an upload is open, whatever else happens. */
module Uploads {
  import opened Nmea
  import opened Basics
  import opened Framing
  import opened Protocol
  import opened Switching
  import opened Publications
  import opened GnssRuns

  /** Nothing among the actions ends the upload. */
  predicate OpenThroughout(acts: seq<Action>) {
    forall i :: 0 <= i < |acts| ==> !acts[i].EndClose? && !acts[i].EndFinish?
  }

  function UploadedBy(a: Action): seq<byte> {
    if a.OverrideFeed? then a.data else []
  }

  function Uploaded(acts: seq<Action>): seq<byte> {
    if acts == [] then [] else Uploaded(acts[..|acts| - 1]) + UploadedBy(acts[|acts| - 1])
  }

  /** The feeds among the actions, in order. */
  function Feeds(acts: seq<Action>): seq<Action> {
    if acts == [] then []
    else Feeds(acts[..|acts| - 1]) + if acts[|acts| - 1].OverrideFeed? then [acts[|acts| - 1]] else []
  }

  /** Nothing else counts for what is uploaded. */
  lemma {:induction false} FeedsUpload(acts: seq<Action>)
    ensures Uploaded(Feeds(acts)) == Uploaded(acts)
  {
    if acts == [] {
    } else {
      var n := |acts| - 1;
      FeedsUpload(acts[..n]);
      UploadedConcat(Feeds(acts[..n]), if acts[n].OverrideFeed? then [acts[n]] else []);
      UploadedOne(acts[n]);
    }
  }

  lemma UploadedOne(a: Action)
    ensures Uploaded([a]) == UploadedBy(a) && Uploaded([]) == []
  {
    assert [a][..0] == [] && [] + UploadedBy(a) == UploadedBy(a);
  }

  lemma {:induction false} UploadedConcat(a: seq<Action>, b: seq<Action>)
    ensures Uploaded(a + b) == Uploaded(a) + Uploaded(b)
    decreases |b|
  {
    if b == [] {
      assert a + b == a && Uploaded(a) + [] == Uploaded(a);
    } else {
      var n := |b| - 1;
      UploadedConcat(a, b[..n]);
      assert (a + b)[..|a + b| - 1] == a + b[..n];
      Regroup(Uploaded(a), Uploaded(b[..n]), UploadedBy(b[n]));
    }
  }

  function Resets(acts: seq<Action>): nat {
    if acts == [] then 0 else Resets(acts[..|acts| - 1]) + if acts[|acts| - 1].InitReset? then 1 else 0
  }

  /** The bytes of the segments from the k-th on, joined. */
  function Stretch(segs: seq<Segment>, k: nat): seq<byte> {
    if |segs| <= k then [] else Stretch(segs[..|segs| - 1], k) + segs[|segs| - 1].bytes
  }

  lemma StretchGrows(segs: seq<Segment>, k: nat, seg: Segment, data: seq<byte>)
    requires k < |segs| && seg.bytes == segs[|segs| - 1].bytes + data
    ensures Stretch(segs[|segs| - 1 := seg], k) == Stretch(segs, k) + data
  {
    var n := |segs| - 1;
    assert segs[n := seg][..n] == segs[..n];
    Regroup(Stretch(segs[..n], k), segs[n].bytes, data);
  }

  lemma StretchReset(segs: seq<Segment>, k: nat, gen: nat)
    requires k < |segs|
    ensures Stretch(segs + [Segment(gen, [], [])], k) == Stretch(segs, k)
  {
    var more := segs + [Segment(gen, [], [])];
    assert more[..|segs|] == segs && Stretch(segs, k) + [] == Stretch(segs, k);
  }

  lemma StretchOne(segs: seq<Segment>, k: nat)
    requires |segs| == k + 1
    ensures Stretch(segs, k) == segs[k].bytes
  {
    assert [] + segs[k].bytes == segs[k].bytes;
  }

  lemma StretchTwo(segs: seq<Segment>, k: nat)
    requires |segs| == k + 2
    ensures Stretch(segs, k) == segs[k].bytes + segs[k + 1].bytes
  {
    StretchOne(segs[..k + 1], k);
  }

  function Flag(b: bool): nat {
    if b then 1 else 0
  }

  /** The upload that is open at s is still open at t, with data fed since in the segments from the k-th
      on, which so many resets of the init task have cut. */
  ghost predicate FedSince(s: State, t: State, k: nat, data: seq<byte>, resets: nat) {
    && t.active && !t.closing && t.gen == s.gen
    && k < |s.segs| && |t.segs| == |s.segs| + resets && t.segs[..k] == s.segs[..k]
    && Flag(t.initDone) == Flag(s.initDone) + resets
    && Stretch(t.segs, k) == Stretch(s.segs, k) + data
  }

  predicate SameFlags(s: State, t: State) {
    t.active == s.active && t.closing == s.closing && t.gen == s.gen && t.initDone == s.initDone
  }

  lemma FedNothing(s: State, k: nat)
    requires s.active && !s.closing && k < |s.segs|
    ensures FedSince(s, s, k, [], 0)
  {
    assert Stretch(s.segs, k) + [] == Stretch(s.segs, k);
  }

  lemma FeedStep(s: State, data: seq<byte>, k: nat)
    requires s.active && !s.closing && k < |s.segs|
    ensures FedSince(s, Feed(s, data), k, data, 0)
  {
    var n := |s.segs| - 1;
    var bytes := s.segs[n].bytes + data;
    FeedExtends(s, data);
    FeedKeepsFlags(s, data);
    GrownStep(s, Feed(s, data), Segment(s.segs[n].gen, bytes, Emitted(bytes)), k, data);
  }

  lemma GrownStep(s: State, t: State, seg: Segment, k: nat, data: seq<byte>)
    requires s.active && !s.closing && k < |s.segs| && SameFlags(s, t)
    requires seg.bytes == s.segs[|s.segs| - 1].bytes + data && t.segs == s.segs[|s.segs| - 1 := seg]
    ensures FedSince(s, t, k, data, 0)
  {
    StretchGrows(s.segs, k, seg, data);
  }

  lemma QuietStep(s: State, t: State, k: nat)
    requires s.active && !s.closing && k < |s.segs| && SameFlags(s, t) && t.segs == s.segs
    ensures FedSince(s, t, k, [], 0)
  {
    assert Stretch(s.segs, k) + [] == Stretch(s.segs, k);
  }

  lemma ResetStep(s: State, k: nat)
    requires s.active && !s.closing && k < |s.segs| && !s.initDone
    ensures FedSince(s, Apply(s, InitReset), k, [], 1)
  {
    StretchReset(s.segs, k, s.gen);
    assert Stretch(s.segs, k) + [] == Stretch(s.segs, k);
  }

  predicate IsQuiet(a: Action) {
    a.Begin? || a.UartFeed? || a.EndDiscard? || a.EndSend? || a.EndTakeAck? || a.TimerFires? || a.Dispatch?
  }

  lemma EdgesAreQuiet(s: State, a: Action)
    requires s.segs != [] && s.active && !s.closing && Enabled(s, a) && IsQuiet(a)
    ensures SameFlags(s, Apply(s, a)) && Apply(s, a).segs == s.segs
  {}

  lemma EdgeStep(s: State, a: Action, k: nat)
    requires s.active && !s.closing && k < |s.segs| && Enabled(s, a) && IsQuiet(a)
    ensures FedSince(s, Apply(s, a), k, [], 0)
  {
    EdgesAreQuiet(s, a);
    QuietStep(s, Apply(s, a), k);
  }

  lemma OneUploadStep(s: State, a: Action, k: nat)
    requires Core(s) && s.active && !s.closing && k < |s.segs| && Enabled(s, a) && !a.EndClose? && !a.EndFinish?
    ensures FedSince(s, Apply(s, a), k, UploadedBy(a), Flag(a.InitReset?))
  {
    match a
    case OverrideFeed(data) => FeedStep(s, data, k);
    case InitReset => ResetStep(s, k);
    case FilterStep =>
      FilterKeepsHistory(s);
      FilterKeepsFlags(s);
      QuietStep(s, Filter(s), k);
    case _ => EdgeStep(s, a, k);
  }

  lemma FedAdds(s: State, t: State, u: State, k: nat, data: seq<byte>, more: seq<byte>, n: nat, m: nat)
    requires FedSince(s, t, k, data, n) && FedSince(t, u, k, more, m)
    ensures FedSince(s, u, k, data + more, n + m)
  {
    Regroup(Stretch(s.segs, k), data, more);
  }

  lemma NextUploadStep(acts: seq<Action>, s: State, u: State, a: Action, k: nat, data: seq<byte>, n: nat)
    requires After(acts) == Some(u) && u.segs != [] && Enabled(u, a) && FedSince(s, u, k, data, n)
    requires !a.EndClose? && !a.EndFinish?
    ensures FedSince(s, Apply(u, a), k, data + UploadedBy(a), n + Flag(a.InitReset?))
  {
    AlwaysCore(acts, u);
    OneUploadStep(u, a, k);
    FedAdds(s, u, Apply(u, a), k, data, UploadedBy(a), n, Flag(a.InitReset?));
  }

  /** While an upload is open the parser gets its bytes, all of them, in order, and no others; the init
      task cuts them at most once. */
  lemma {:induction false} UploadIsFedWhole(acts: seq<Action>, s: State, k: nat, more: seq<Action>, t: State)
    requires After(acts) == Some(s) && s.active && !s.closing && k < |s.segs|
    requires After(acts + more) == Some(t) && OpenThroughout(more)
    ensures FedSince(s, t, k, Uploaded(more), Resets(more)) && Resets(more) <= 1
    decreases |more|, 1
  {
    if more == [] {
      assert acts + more == acts;
      FedNothing(s, k);
    } else {
      UploadLastStep(acts, s, k, more, t);
    }
  }

  lemma {:induction false} UploadLastStep(acts: seq<Action>, s: State, k: nat, more: seq<Action>, t: State)
    requires After(acts) == Some(s) && s.active && !s.closing && k < |s.segs| && more != []
    requires After(acts + more) == Some(t) && OpenThroughout(more)
    ensures FedSince(s, t, k, Uploaded(more), Resets(more)) && Resets(more) <= 1
    decreases |more|, 0
  {
    var first, last := more[..|more| - 1], more[|more| - 1];
    var u := BeforeLast(acts, more, t);
    UploadIsFedWhole(acts, s, k, first, u);
    NextUploadStep(acts + first, s, u, last, k, Uploaded(first), Resets(first));
  }

  lemma Begins(acts: seq<Action>, s: State) returns (u: State)
    requires After(acts) == Some(s) && !s.active
    ensures After(acts + [Begin]) == Some(u) && u.active && !u.closing && u.gen == s.gen + 1
    ensures u.segs == s.segs + [Segment(s.gen + 1, [], [])]
  {
    u := Apply(s, Begin);
    Then(acts, s, Begin);
    BeginOpens(s, u);
  }

  lemma BeginOpens(s: State, u: State)
    requires s.segs != [] && !s.active && u == Apply(s, Begin)
    ensures u.active && !u.closing && u.gen == s.gen + 1 && u.segs == s.segs + [Segment(s.gen + 1, [], [])]
  {}

  /** So, from its beginning, of a session. */
  lemma SessionIsFedWhole(acts: seq<Action>, s: State, more: seq<Action>, t: State)
    requires After(acts) == Some(s) && !s.active && After(acts + [Begin] + more) == Some(t) && OpenThroughout(more)
    ensures Resets(more) <= 1 && t.active && !t.closing && t.gen == s.gen + 1 && |t.segs| == |s.segs| + 1 + Resets(more)
    ensures t.segs[..|s.segs|] == s.segs && Stretch(t.segs, |s.segs|) == Uploaded(more)
  {
    var u := Begins(acts, s);
    UploadIsFedWhole(acts + [Begin], u, |s.segs|, more, t);
    StretchOne(u.segs, |s.segs|);
    NothingBefore(Uploaded(more));
  }

  /** Whatever other tasks do, at every moment of such a session the override is active and not closing,
      so that the next feed is taken. */
  lemma NextFeedIsTaken(acts: seq<Action>, s: State, more: seq<Action>, t: State, n: nat) returns (u: State)
    requires After(acts) == Some(s) && !s.active && After(acts + [Begin] + more) == Some(t) && OpenThroughout(more)
    requires n <= |more|
    ensures After(acts + [Begin] + more[..n]) == Some(u) && u.active && !u.closing && u.gen == s.gen + 1
  {
    u := PartOfRun(acts + [Begin], more, t, n);
    SessionIsFedWhole(acts, s, more[..n], u);
  }

  lemma {:induction false} PartOfRun(acts: seq<Action>, more: seq<Action>, t: State, n: nat) returns (u: State)
    requires After(acts + more) == Some(t) && n <= |more|
    ensures After(acts + more[..n]) == Some(u)
    decreases |more|
  {
    if n == |more| {
      assert more[..n] == more;
      u := t;
    } else {
      var v := BeforeLast(acts, more, t);
      u := PartOfRun(acts, more[..|more| - 1], v, n);
      assert more[..|more| - 1][..n] == more[..n];
    }
  }

  lemma FeedKeepsFlags(s: State, data: seq<byte>)
    requires s.segs != []
    ensures SameFlags(s, Feed(s, data))
  {
    var k := |s.segs| - 1;
    var bytes := s.segs[k].bytes + data;
    PushFromKeepsFlags(s.(segs := s.segs[k := Segment(s.segs[k].gen, bytes, Emitted(bytes))]), Emitted(bytes), |s.segs[k].out|);
  }

  lemma {:induction false} PushFromKeepsFlags(s: State, out: seq<Pair>, n: nat)
    requires s.segs != []
    ensures SameFlags(s, PushFrom(s, out, n))
    decreases |out| - n
  {
    if n >= |out| {
    } else {
      PushFromKeepsFlags(Push(s, Candidate(out[n], s.epoch, s.gen, |s.segs| - 1, n)), out, n + 1);
    }
  }

  lemma FilterKeepsFlags(s: State)
    requires Enabled(s, FilterStep)
    ensures SameFlags(s, Filter(s))
  {
    match s.pc
    case Selected(m) => if m.CandidateQueue? {} else if m.TimerQueue? {} else {}
    case _ =>
  }
}
