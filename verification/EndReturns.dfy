/** gnss_input_override_end can always return: from every reachable state with an override open a call of it
    can be carried through, within a bounded number of steps of the caller and the filter alone. */
module EndReturns {
  import opened Nmea
  import opened Basics
  import opened Framing
  import opened MockRoute
  import opened Protocol
  import opened Switching
  import opened Windows
  import opened Publications
  import opened GnssRuns
  import opened Uploads
  import opened RouteUploads
  import opened Delivery
  import opened UartRuns

  /** What the steps of an end leave alone until the last of them. */
  predicate SameSession(s: State, t: State) {
    t.active && t.gen == s.gen && t.accepted == s.accepted && t.segs == s.segs
  }

  lemma PublishKeepsCallers(s: State)
    requires s.pc.PublishApply?
    ensures Filter(s).callers == s.callers
  {}

  lemma ConsiderKeepsCallers(s: State)
    requires s.pc.ConsiderApply?
    ensures Filter(s).callers == s.callers
  {}

  lemma ReceiveKeepsCallers(s: State, m: Member)
    requires s.pc == Selected(m)
    ensures Filter(s).callers == s.callers
  {
    if m.CandidateQueue? {} else if m.TimerQueue? {} else {}
  }

  lemma SelectKeepsCallers(s: State)
    requires Enabled(s, FilterStep) && s.pc.AtSelect?
    ensures Filter(s).callers == s.callers
  {}

  lemma ReadKeepsCallers(s: State)
    requires s.pc.ConsiderRead? || s.pc.FlushRead? || s.pc.PublishRead? || s.pc.AckGive?
    ensures Filter(s).callers == s.callers
  {}

  lemma FilterKeepsCallers(s: State)
    requires Enabled(s, FilterStep)
    ensures Filter(s).callers == s.callers
  {
    match s.pc
    case PublishApply(_, _, _) => PublishKeepsCallers(s);
    case ConsiderApply(_, _, _) => ConsiderKeepsCallers(s);
    case Selected(m) => ReceiveKeepsCallers(s, m);
    case AtSelect => SelectKeepsCallers(s);
    case _ => ReadKeepsCallers(s);
  }

  lemma OneFilterStep(acts: seq<Action>, s: State, id: nat) returns (t: State)
    requires After(acts) == Some(s) && AwaitsAck(s, id) && s.active
    ensures After(acts + [FilterStep]) == Some(t) && SameSession(s, t) && t.callers == s.callers && StepsToAck(s) > 0
    ensures if StepsToAck(s) == 1 then t.ack else AwaitsAck(t, id) && StepsToAck(t) == StepsToAck(s) - 1
  {
    AlwaysCore(acts, s);
    FilterProgress(s, id);
    FilterKeepsHistory(s);
    FilterKeepsFlags(s);
    FilterKeepsCallers(s);
    Then(acts, s, FilterStep);
    t := Filter(s);
  }

  /** The filter alone brings the acknowledgement, in exactly the steps counted. */
  lemma {:induction false} FilterBringsAck(acts: seq<Action>, s: State, id: nat) returns (more: seq<Action>, t: State)
    requires After(acts) == Some(s) && AwaitsAck(s, id) && s.active
    ensures After(acts + more) == Some(t) && |more| == StepsToAck(s) && SameSession(s, t)
    ensures t.callers == s.callers && t.ack && Unfinished(more)
    decreases StepsToAck(s)
  {
    var u := OneFilterStep(acts, s, id);
    if StepsToAck(s) == 1 {
      more, t := [FilterStep], u;
    } else {
      more, t := FilterBringsAck(acts + [FilterStep], u, id);
      Regroup(acts, [FilterStep], more);
      more := [FilterStep] + more;
    }
  }

  /** The call closes the session, discards an old acknowledgement and queues its control. */
  lemma QueuesControl(acts: seq<Action>, s: State, id: nat) returns (t: State)
    requires After(acts) == Some(s) && s.active && !s.closing && Enabled(s, EndClose(id))
    ensures After(acts + [EndClose(id)] + [EndDiscard(id)] + [EndSend(id)]) == Some(t)
    ensures SameSession(s, t) && AwaitsAck(t, id)
  {
    var a := Closes(acts, s, id);
    var b := Discards(acts + [EndClose(id)], a, id);
    t := Sends(acts + [EndClose(id)] + [EndDiscard(id)], b, id);
  }

  lemma Closes(acts: seq<Action>, s: State, id: nat) returns (t: State)
    requires After(acts) == Some(s) && s.active && !s.closing && Enabled(s, EndClose(id))
    ensures After(acts + [EndClose(id)]) == Some(t) && SameSession(s, t)
    ensures id in t.callers && t.callers[id].Discard?
  {
    t := Apply(s, EndClose(id));
    Then(acts, s, EndClose(id));
  }

  lemma Discards(acts: seq<Action>, s: State, id: nat) returns (t: State)
    requires After(acts) == Some(s) && s.active && id in s.callers && s.callers[id].Discard?
    ensures After(acts + [EndDiscard(id)]) == Some(t) && SameSession(s, t)
    ensures id in t.callers && t.callers[id].Send? && !t.ack
  {
    t := Apply(s, EndDiscard(id));
    Then(acts, s, EndDiscard(id));
  }

  lemma Sends(acts: seq<Action>, s: State, id: nat) returns (t: State)
    requires After(acts) == Some(s) && s.active && id in s.callers && s.callers[id].Send? && !s.ack
    ensures After(acts + [EndSend(id)]) == Some(t) && SameSession(s, t) && AwaitsAck(t, id)
  {
    AlwaysCore(acts, s);
    NoControlBefore(s, id);
    t := Apply(s, EndSend(id));
    Then(acts, s, EndSend(id));
  }

  lemma NoControlBefore(s: State, id: nat)
    requires InvFlush(s) && id in s.callers && s.callers[id].Send?
    ensures s.controls == []
  {
    assert Phase(s, s.callers[id]);
  }

  lemma TakesAck(acts: seq<Action>, s: State, id: nat) returns (t: State)
    requires After(acts) == Some(s) && s.active && id in s.callers && s.callers[id] == AwaitAck && s.ack
    ensures After(acts + [EndTakeAck(id)]) == Some(t) && SameSession(s, t) && Enabled(t, EndFinish(id))
  {
    t := Apply(s, EndTakeAck(id));
    Then(acts, s, EndTakeAck(id));
  }

  /** The steps of an end whose filter takes the steps between. */
  function EndSteps(id: nat, between: seq<Action>): seq<Action> {
    [EndClose(id)] + [EndDiscard(id)] + [EndSend(id)] + between + [EndTakeAck(id)]
  }

  lemma Rejoin<T>(a: seq<T>, b: seq<T>, c: seq<T>, d: seq<T>, e: seq<T>, f: seq<T>)
    ensures a + (b + c + d + e + f) == a + b + c + d + e + f
  {}

  /** From every reachable state with an override open, an end can come to its last section, in at most 49
      steps, 45 of them the filter's, with what was accepted unchanged. */
  lemma EndCanReturn(acts: seq<Action>, s: State, id: nat) returns (between: seq<Action>, t: State)
    requires After(acts) == Some(s) && s.active && !s.closing && Enabled(s, EndClose(id))
    ensures After(acts + EndSteps(id, between)) == Some(t) && |EndSteps(id, between)| <= 49
    ensures SameSession(s, t) && Enabled(t, EndFinish(id)) && Unfinished(between)
  {
    var a := QueuesControl(acts, s, id);
    var queued := acts + [EndClose(id)] + [EndDiscard(id)] + [EndSend(id)];
    AlwaysCore(queued, a);
    WaitingIsInFlight(a, id);
    var b;
    between, b := FilterBringsAck(queued, a, id);
    t := TakesAck(queued + between, b, id);
    Rejoin(acts, [EndClose(id)], [EndDiscard(id)], [EndSend(id)], between, [EndTakeAck(id)]);
  }

  /** And then it returns, with the parser handed back to the UART. */
  lemma Returns(acts: seq<Action>, s: State, id: nat) returns (t: State)
    requires After(acts) == Some(s) && Enabled(s, EndFinish(id))
    ensures After(acts + [EndFinish(id)]) == Some(t) && !t.active && !t.closing && t.gen == s.gen + 1 && id !in t.callers
  {
    t := Apply(s, EndFinish(id));
    Then(acts, s, EndFinish(id));
  }

  // ---------------------------------------------------------------- a whole session

  lemma PointEmitted(p: Point)
    requires GoodPoint(p)
    ensures Emitted(Chunk(p)) == [PairOf(p)] && [] + Chunk(p) == Chunk(p)
  {
    ChunkArrives([], p);
    NothingFed();
    NothingBefore(Chunk(p));
    NothingBefore([PairOf(p)]);
  }

  lemma FedPoint(p: Point, u: State, s: State, c: Candidate)
    requires GoodPoint(p) && u == Begun([Segment(1, [], [])], false) && s == Begun([Segment(1, Chunk(p), [PairOf(p)])], false)
    requires c == Candidate(PairOf(p), 2, 1, 1, 0)
    ensures Feed(u, Chunk(p)) == s.(candidates := [c], markers := [CandidateQueue], accepted := s.accepted + [c])
  {
    PointEmitted(p);
    assert u.segs[1 := Segment(1, Chunk(p), [PairOf(p)])] == s.segs;
    OnePush(s, c, [PairOf(p)], 0);
  }

  /** A point uploaded after start-up. */
  lemma FeedsPoint(p: Point) returns (s: State)
    requires GoodPoint(p)
    ensures After([Begin] + [OverrideFeed(Chunk(p))]) == Some(s)
    ensures s.active && !s.closing && s.callers == map[] && s.gen == 1 && Of(s.accepted, 1) != []
  {
    var u, v := Begun([Segment(1, [], [])], false), Begun([Segment(1, Chunk(p), [PairOf(p)])], false);
    var c := Candidate(PairOf(p), 2, 1, 1, 0);
    Started();
    FedPoint(p, u, v, c);
    Then([Begin], u, OverrideFeed(Chunk(p)));
    s := Feed(u, Chunk(p));
    assert s.accepted == [c];
    OfOne(c, 1);
  }

  /** A session from its first call to its last: any point, uploaded, is published before the override ends, and
      the override does end. */
  lemma PointIsPublished(p: Point) returns (acts: seq<Action>, s: State, t: State, k: nat)
    requires GoodPoint(p)
    ensures After(acts) == Some(s) && Enabled(s, EndFinish(0)) && k < |s.pubs| && s.pubs[k].publication.data == Chunk(p)
    ensures After(acts + [EndFinish(0)]) == Some(t) && !t.active && t.gen == 2
  {
    var u := FeedsPoint(p);
    var up := [OverrideFeed(Chunk(p))];
    var between;
    between, s := EndCanReturn([Begin] + up, u, 0);
    acts := [Begin] + up + EndSteps(0, between);
    t := Returns(acts, s, 0);
    k := OnlyPoint(p, between, s);
  }

  lemma OnePointRoute(p: Point)
    requires GoodPoint(p)
    ensures AllGood([p]) && Body([p]) == Chunk(p)
  {
    NoBody();
    BodyAppend([], p);
    NothingBefore([p]);
    NothingBefore(Chunk(p));
  }

  lemma EndIsUnfinished(id: nat, between: seq<Action>)
    requires Unfinished(between)
    ensures var rest := EndSteps(id, between); rest != [] && rest[0] == EndClose(id) && Unfinished(rest)
  {}

  lemma OnlyPoint(p: Point, between: seq<Action>, s: State) returns (k: nat)
    requires GoodPoint(p) && Unfinished(between)
    requires After([Begin] + [OverrideFeed(Chunk(p))] + EndSteps(0, between)) == Some(s)
    requires Enabled(s, EndFinish(0)) && s.gen == 1 && Of(s.accepted, 1) != []
    ensures k < |s.pubs| && s.pubs[k].publication.data == Chunk(p)
  {
    OnePointRoute(p);
    UploadedOne(OverrideFeed(Chunk(p)));
    EndIsUnfinished(0, between);
    NothingBefore([Begin]);
    var i;
    k, i := ExpectedIsStreamed([], INITIAL, [OverrideFeed(Chunk(p))], EndSteps(0, between), s, [p], 0);
  }
}
