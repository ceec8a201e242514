/** Runs worked out: points that arrive on the UART after the init task's reset, one by one, are
    considered for the window, and the window is published. */
module UartRuns {
  import opened Nmea
  import opened Framing
  import opened MockRoute
  import opened Protocol
  import opened GnssRuns

  /** What the UART has been fed, and what has come of it. */
  datatype Story = Story(data: seq<byte>, out: seq<Pair>, accepted: seq<Candidate>,
                         best: Option<Candidate>, window: seq<Candidate>)

  /** The state in which nothing is queued and the filter is at its select. */
  function Told(h: Story): State {
    INITIAL.(initDone := true, segs := [Segment(0, [], []), Segment(0, h.data, h.out)],
             accepted := h.accepted, best := h.best, window := h.window)
  }

  const UNTOLD := Story([], [], [], None, [])

  lemma Resets()
    ensures After([InitReset]) == Some(Told(UNTOLD))
  {
    var none: seq<Action> := [];
    Then(none, INITIAL, InitReset);
    assert none + [InitReset] == [InitReset];
    assert INITIAL.segs + [Segment(0, [], [])] == Told(UNTOLD).segs;
  }

  function Latest(h: Story, p: Point): Candidate
    requires GoodPoint(p)
  {
    Candidate(PairOf(p), 1, 0, 1, |h.out|)
  }

  /** The story with the point's bytes parsed, and with its candidate considered. */
  function Heard(h: Story, p: Point): Story
    requires GoodPoint(p)
  {
    h.(data := h.data + Chunk(p), out := h.out + [PairOf(p)], accepted := h.accepted + [Latest(h, p)])
  }

  function Weighed(h: Story, p: Point): Story
    requires GoodPoint(p)
  {
    var (best, window) := Choose(h.best, h.window, Latest(h, p), 1);
    Heard(h, p).(best := best, window := window)
  }

  lemma OnePush(s: State, c: Candidate, out: seq<Pair>, n: nat)
    requires s.segs != [] && s.candidates == [] && s.markers == [] && |out| == n + 1
    requires c == Candidate(out[n], s.epoch, s.gen, |s.segs| - 1, n)
    ensures PushFrom(s, out, n) == s.(candidates := [c], markers := [CandidateQueue], accepted := s.accepted + [c])
  {
    PushFromStep(s, out, n);
    assert Push(s, c) == s.(candidates := [] + [c], markers := [] + [CandidateQueue], accepted := s.accepted + [c]);
  }

  lemma Hears(h: Story, p: Point)
    requires GoodPoint(p) && h.out == Emitted(h.data)
    ensures Feed(Told(h), Chunk(p)) == Told(Heard(h, p)).(candidates := [Latest(h, p)], markers := [CandidateQueue])
    ensures Heard(h, p).out == Emitted(Heard(h, p).data)
  {
    ChunkArrives(h.data, p);
    var s, t := Told(h), Told(Heard(h, p)).(accepted := h.accepted);
    assert s.segs[1 := Segment(0, h.data + Chunk(p), h.out + [PairOf(p)])] == t.segs;
    OnePush(t, Latest(h, p), h.out + [PairOf(p)], |h.out|);
  }

  /** t is one filter step after s. */
  predicate Filtered(s: State, t: State) {
    Enabled(s, FilterStep) && t == Filter(s)
  }

  lemma FilterTo(acts: seq<Action>, s: State, t: State) returns (more: seq<Action>)
    requires After(acts) == Some(s) && Filtered(s, t)
    ensures After(more) == Some(t) && more == acts + [FilterStep]
  {
    Then(acts, s, FilterStep);
    more := acts + [FilterStep];
  }

  lemma WeighSteps(h: Story, p: Point) returns (s2: State, s3: State, s4: State)
    requires GoodPoint(p)
    ensures Filtered(Told(Heard(h, p)).(candidates := [Latest(h, p)], markers := [CandidateQueue]), s2)
    ensures Filtered(s2, s3) && Filtered(s3, s4) && Filtered(s4, Told(Weighed(h, p)))
  {
    var c, s := Latest(h, p), Told(Heard(h, p));
    s2 := s.(candidates := [c], markers := [], pc := Selected(CandidateQueue));
    s3 := s2.(candidates := [], pc := ConsiderRead(c));
    s4 := s3.(pc := ConsiderApply(c, 1, 0));
  }

  /** A point that arrives is considered four filter steps later. */
  lemma Arrives(acts: seq<Action>, h: Story, p: Point) returns (more: seq<Action>)
    requires After(acts) == Some(Told(h)) && GoodPoint(p) && h.out == Emitted(h.data)
    ensures After(more) == Some(Told(Weighed(h, p))) && Weighed(h, p).out == Emitted(Weighed(h, p).data)
  {
    Hears(h, p);
    Then(acts, Told(h), UartFeed(Chunk(p)));
    var s1 := Told(Heard(h, p)).(candidates := [Latest(h, p)], markers := [CandidateQueue]);
    var s2, s3, s4 := WeighSteps(h, p);
    more := FilterTo(acts + [UartFeed(Chunk(p))], s1, s2);
    more := FilterTo(more, s2, s3);
    more := FilterTo(more, s3, s4);
    more := FilterTo(more, s4, Told(Weighed(h, p)));
  }

  /** The window is about to be published. */
  function Closing(h: Story): State {
    Told(h).(pc := PublishApply(false, 1, 0))
  }

  lemma TimerSteps(h: Story) returns (s1: State, s2: State, s3: State)
    ensures Apply(Told(h), TimerFires) == s1 && s1.segs != []
    ensures Filtered(s1, s2) && Filtered(s2, s3) && Filtered(s3, Closing(h))
  {
    s1 := Told(h).(timer := true, markers := [TimerQueue]);
    s2 := s1.(markers := [], pc := Selected(TimerQueue));
    s3 := Told(h).(pc := PublishRead(false));
    assert Told(h).markers + [TimerQueue] == [TimerQueue] && [TimerQueue][1..] == [];
  }

  lemma Expires(acts: seq<Action>, h: Story) returns (more: seq<Action>)
    requires After(acts) == Some(Told(h))
    ensures After(more) == Some(Closing(h))
  {
    var s1, s2, s3 := TimerSteps(h);
    Then(acts, Told(h), TimerFires);
    more := FilterTo(acts + [TimerFires], s1, s2);
    more := FilterTo(more, s2, s3);
    more := FilterTo(more, s3, Closing(h));
  }

  lemma PublishesBest(h: Story)
    requires h.best.Some? && h.best.value.epoch == 1
    ensures Filter(Closing(h)).pubs == [] + [Record(Render(1, h.best.value), h.best.value, h.window, 0)]
  {}

  /** The filter publishes what it holds. */
  lemma Publishes(acts: seq<Action>, h: Story) returns (more: seq<Action>, t: State)
    requires After(acts) == Some(Closing(h)) && h.best.Some? && h.best.value.epoch == 1
    ensures After(more) == Some(t)
    ensures t.pubs == [Record(Render(1, h.best.value), h.best.value, h.window, 0)]
  {
    PublishesBest(h);
    t := Filter(Closing(h));
    more := FilterTo(acts, Closing(h), t);
  }
}
