/** Publications of the UART after an override has begun: exactly when there is one, and, for any point
    of a route on the UART, a run in which the point is published so. */
module LateRun {
  import opened Nmea
  import opened Framing
  import opened MockRoute
  import opened RunnerRoute
  import opened Protocol
  import opened Switching
  import opened Windows
  import opened Publications
  import opened GnssRuns
  import opened UartRuns

  // ---------------------------------------------------------------- exactly when

  /** The filter has read the epoch for a publication and holds a candidate to publish. */
  predicate Poised(s: State) {
    s.pc.PublishApply? && s.best.Some?
  }

  /** Late publications made after g switches, with the one still to come. */
  function LateBy(s: State, g: nat): nat {
    Stale(s.pubs, g) + if s.gen == g then PendingStale(s) else 0
  }

  lemma StaleAppend(pubs: seq<Record>, r: Record, g: nat)
    ensures Stale(pubs + [r], g) == Stale(pubs, g) + if r.at == g && r.winner.gen != g then 1 else 0
  {
    assert (pubs + [r])[..|pubs|] == pubs;
  }

  lemma PublishKeepsLate(s: State, g: nat)
    requires InvEpoch(s) && s.pc.PublishApply? && g <= s.gen
    ensures LateBy(Filter(s), g) == LateBy(s, g)
  {
    PublishStep(s);
    if s.best.Some? {
      EpochDecides(s, s.best.value.gen, s.pc.gen);
      StaleAppend(s.pubs, Record(Render(s.nextSequence, s.best.value), s.best.value, s.window, s.gen), g);
    }
  }

  /** A filter step that publishes nothing leaves the account, as none of them arrives at a publication
      with an epoch that is out of date. */
  lemma QuietStepKeepsLate(s: State, t: State, g: nat)
    requires t.gen == s.gen && t.pubs == s.pubs && !s.pc.PublishApply? && (t.pc.PublishApply? ==> t.pc.gen == s.gen)
    ensures LateBy(t, g) == LateBy(s, g)
  {}

  lemma FilterKeepsLate(s: State, g: nat)
    requires InvEpoch(s) && InvMarkers(s) && Enabled(s, FilterStep) && g <= s.gen
    ensures LateBy(Filter(s), g) == LateBy(s, g) && Filter(s).gen == s.gen
  {
    match s.pc
    case PublishApply(_, _, _) => PublishStep(s); PublishKeepsLate(s, g);
    case PublishRead(flush) =>
      ReadSteps(s);
      assert Filter(s).pc == PublishApply(flush, s.epoch, s.gen);
      QuietStepKeepsLate(s, Filter(s), g);
    case Selected(CandidateQueue) => SetNeverOverflows(s); ReceiveStep(s); QuietStepKeepsLate(s, Filter(s), g);
    case ConsiderApply(_, _, _) => ConsiderStep(s); QuietStepKeepsLate(s, Filter(s), g);
    case _ => OtherStepsKeepLate(s, g);
  }

  lemma OtherStepsKeepLate(s: State, g: nat)
    requires Enabled(s, FilterStep) && g <= s.gen
    requires s.pc.AtSelect? || s.pc == Selected(TimerQueue) || s.pc == Selected(ControlQueue)
             || s.pc.ConsiderRead? || s.pc.FlushRead? || s.pc.AckGive?
    ensures LateBy(Filter(s), g) == LateBy(s, g) && Filter(s).gen == s.gen
  {
    if s.pc.AtSelect? || s.pc.Selected? { QueueSteps(s); } else { ReadSteps(s); }
    assert !Filter(s).pc.PublishApply?;
    QuietStepKeepsLate(s, Filter(s), g);
  }

  lemma FeedKeepsLate(s: State, data: seq<byte>, g: nat)
    requires s.segs != []
    ensures LateBy(Feed(s, data), g) == LateBy(s, g) && Feed(s, data).gen == s.gen
  {
    var k := |s.segs| - 1;
    var bytes := s.segs[k].bytes + data;
    PushFromKeepsBooks(s.(segs := s.segs[k := Segment(s.segs[k].gen, bytes, Emitted(bytes))]), Emitted(bytes), |s.segs[k].out|);
  }

  /** Once an override has begun its account never changes again. */
  lemma StepKeepsLate(s: State, a: Action, g: nat)
    requires Ledger(s) && Enabled(s, a) && g <= s.gen && g % 2 == 1
    ensures LateBy(Apply(s, a), g) == LateBy(s, g) && g <= Apply(s, a).gen
  {
    match a
    case FilterStep => FilterKeepsLate(s, g);
    case OverrideFeed(data) => FeedKeepsLate(s, data, g);
    case UartFeed(data) => FeedKeepsLate(s, data, g);
    case EndFinish(id) => FinishSettles(s, id);
    case Begin =>
    case InitReset =>
    case _ => EdgeSteps(s, a);
  }

  /** What an override that begins at s owes. */
  function Owed(s: State): nat {
    if Poised(s) then 1 else 0
  }

  /** The override that is active at u was begun by switch g, and owes n. */
  predicate Owes(u: State, g: nat, n: nat) {
    u.gen == g && g % 2 == 1 && LateBy(u, g) == n
  }

  lemma BeginOwes(s: State, u: State)
    requires s.segs != [] && InvEpoch(s) && InvRecords(s) && !s.active && u == Apply(s, Begin)
    ensures Owes(u, s.gen + 1, Owed(s))
  {
    StaleNone(s.pubs, s.gen + 1);
    if Poised(s) { assert Live(s, s.pc.gen); }
  }

  lemma RunBeginOwes(acts: seq<Action>, s: State) returns (u: State)
    requires After(acts) == Some(s) && !s.active
    ensures After(acts + [Begin]) == Some(u) && Owes(u, s.gen + 1, Owed(s))
  {
    u := Apply(s, Begin);
    AlwaysCore(acts, s);
    AlwaysRecords(acts, s);
    Then(acts, s, Begin);
    BeginOwes(s, u);
  }

  lemma RunKeepsLate(acts: seq<Action>, s: State, a: Action, g: nat)
    requires After(acts) == Some(s) && Enabled(s, a) && g <= s.gen && g % 2 == 1 && s.segs != []
    ensures LateBy(Apply(s, a), g) == LateBy(s, g) && g <= Apply(s, a).gen
  {
    AlwaysGood(acts, s);
    StepKeepsLate(s, a, g);
  }

  lemma {:induction false} RunsKeepLate(acts: seq<Action>, s: State, more: seq<Action>, t: State, g: nat)
    requires After(acts) == Some(s) && After(acts + more) == Some(t) && g <= s.gen && g % 2 == 1
    ensures g <= t.gen && LateBy(t, g) == LateBy(s, g)
    decreases |more|
  {
    if more == [] {
      assert acts + more == acts;
    } else {
      var u := BeforeLast(acts, more, t);
      RunsKeepLate(acts, s, more[..|more| - 1], u, g);
      RunKeepsLate(acts + more[..|more| - 1], u, more[|more| - 1], g);
    }
  }

  lemma LateFrom(begun: seq<Action>, u: State, more: seq<Action>, t: State, g: nat, n: nat)
    requires After(begun) == Some(u) && Owes(u, g, n) && After(begun + more) == Some(t)
    ensures g <= t.gen && LateBy(t, g) == n
  {
    RunsKeepLate(begun, u, more, t, g);
  }

  /** An override is followed by one late publication, made or to come, if it begins while the filter is
      poised to publish, and by none if not: in every continuation, for good. */
  lemma LateExactly(acts: seq<Action>, s: State, more: seq<Action>, t: State)
    requires After(acts) == Some(s) && !s.active && After(acts + [Begin] + more) == Some(t)
    ensures t.gen > s.gen && LateBy(t, s.gen + 1) == if Poised(s) then 1 else 0
  {
    var u := RunBeginOwes(acts, s);
    LateFrom(acts + [Begin], u, more, t, s.gen + 1, Owed(s));
  }

  /** A continuation of the run acts, which ends at s, that starts with an override and has a late
      publication. */
  ghost predicate LateIn(acts: seq<Action>, s: State, more: seq<Action>) {
    After(acts + [Begin] + more).Some? && Stale(After(acts + [Begin] + more).value.pubs, s.gen + 1) > 0
  }

  /** So a publication of the UART can follow the beginning of an override if and only if the filter is
      poised at that moment. */
  lemma LateIff(acts: seq<Action>, s: State)
    requires After(acts) == Some(s) && !s.active
    ensures (exists more :: LateIn(acts, s, more)) <==> Poised(s)
  {
    if Poised(s) {
      PoisedIsLate(acts, s);
    }
    forall more | LateIn(acts, s, more) ensures Poised(s) {
      LateExactly(acts, s, more, After(acts + [Begin] + more).value);
    }
  }

  lemma PoisedIsLate(acts: seq<Action>, s: State)
    requires After(acts) == Some(s) && !s.active && Poised(s)
    ensures LateIn(acts, s, [FilterStep])
  {
    AlwaysGood(acts, s);
    LateRecord(s);
    LatePublicationHappens(s);
    Then(acts, s, Begin);
    Then(acts + [Begin], Apply(s, Begin), FilterStep);
  }

  // ---------------------------------------------------------------- a run

  /** The init task resets the parser, the point arrives and is considered, the window expires, and the
      filter stands before its publication. */
  lemma ReachesPoised(p: Point) returns (acts: seq<Action>)
    requires GoodPoint(p)
    ensures After(acts) == Some(Closing(Weighed(UNTOLD, p)))
  {
    Resets();
    NothingFed();
    acts := Arrives([InitReset], UNTOLD, p);
    acts := Expires(acts, Weighed(UNTOLD, p));
  }

  /** The late publication is reached, with any point's bytes. */
  lemma LatePublicationIsReached(p: Point) returns (acts: seq<Action>, s: State)
    requires GoodPoint(p)
    ensures After(acts) == Some(s) && s.active && |s.pubs| == 1
    ensures Stale(s.pubs, s.gen) == 1 && s.pubs[0].publication.data == Chunk(p)
  {
    acts := ReachesPoised(p);
    var u := Closing(Weighed(UNTOLD, p));
    AlwaysGood(acts, u);
    LatePublicationHappens(u);
    LateRecord(u);
    Then(acts, u, Begin);
    Then(acts + [Begin], Apply(u, Begin), FilterStep);
    acts := acts + [Begin] + [FilterStep];
    s := Apply(Apply(u, Begin), FilterStep);
  }

  /** There are such points: those of the hardware test's own route. */
  lemma SomePoint() returns (p: Point)
    ensures GoodPoint(p) && p == RunnerPoint(0, NEW_YEAR, 0)
  {
    RunnerPointIsGood(0, NEW_YEAR, 0);
    p := RunnerPoint(0, NEW_YEAR, 0);
  }

  /** A date: the first of January 2025. */
  const NEW_YEAR: seq<byte> := [0x30, 0x31, 0x30, 0x31, 0x32, 0x35]
}
