/** What is published: each publication against its window, its source and the moment it appears. */
module Publications {
  import opened Nmea
  import opened Basics
  import opened Framing
  import opened Protocol
  import opened Switching
  import opened Windows

  // ---------------------------------------------------------------- records

  /** The sequence number after n increments from zero. */
  function SequenceOf(n: nat): (q: nat)
    ensures q < WORD
  {
    if n == 0 then 0 else Increment(SequenceOf(n - 1))
  }

  lemma {:induction false} SequenceWraps(n: nat)
    ensures SequenceOf(n) == n % WORD
  {
    if n == 0 {
    } else {
      SequenceWraps(n - 1);
      assert n % WORD == if (n - 1) % WORD == WORD - 1 then 0 else (n - 1) % WORD + 1;
    }
  }

  /** The i-th publication shows the earliest candidate of lowest HDOP of a window of one generation,
      in that generation or, for the UART's, at most one switch later. */
  predicate GoodRecord(r: Record, i: nat) {
    && r.window != [] && r.winner == Champion(r.window) && Uniform(r.window, r.winner.gen)
    && r.publication == Render(SequenceOf(i + 1), r.winner)
    && (r.at == r.winner.gen || (r.at == r.winner.gen + 1 && r.at % 2 == 1))
  }

  /** Publications of an earlier generation that appeared after g switches. */
  function Stale(pubs: seq<Record>, g: nat): nat {
    if pubs == [] then 0
    else
      var r := pubs[|pubs| - 1];
      Stale(pubs[..|pubs| - 1], g) + (if r.at == g && r.winner.gen != g then 1 else 0)
  }

  lemma {:induction false} StaleNone(pubs: seq<Record>, g: nat)
    requires forall i :: 0 <= i < |pubs| ==> pubs[i].at < g
    ensures Stale(pubs, g) == 0
  {
    if pubs == [] {
    } else {
      StaleNone(pubs[..|pubs| - 1], g);
    }
  }

  /** The filter is about to publish on an epoch it read before the last switch. */
  function PendingStale(s: State): nat {
    if s.pc.PublishApply? && s.best.Some? && s.pc.gen < s.gen then 1 else 0
  }

  predicate FewStale(pubs: seq<Record>, gen: nat) {
    forall g: nat :: g < gen ==> Stale(pubs, g) <= if g % 2 == 1 then 1 else 0
  }

  predicate RecordsOk(pubs: seq<Record>, nextSequence: nat, gen: nat, pending: nat) {
    && nextSequence == SequenceOf(|pubs| + 1)
    && (forall i :: 0 <= i < |pubs| ==> GoodRecord(pubs[i], i) && pubs[i].at <= gen)
    && FewStale(pubs, gen)
    && Stale(pubs, gen) + pending <= if gen % 2 == 1 then 1 else 0
  }

  predicate InvRecords(s: State) {
    RecordsOk(s.pubs, s.nextSequence, s.gen, PendingStale(s))
  }

  /** A switch opens an account for the new generation; only one from the UART may start with a debt. */
  lemma SwitchKeepsOk(pubs: seq<Record>, nextSequence: nat, gen: nat, pending: nat, pending': nat)
    requires RecordsOk(pubs, nextSequence, gen, pending) && pending' <= if gen % 2 == 0 then 1 else 0
    ensures RecordsOk(pubs, nextSequence, gen + 1, pending')
  {
    StaleNone(pubs, gen + 1);
  }

  lemma RecordKeepsOk(pubs: seq<Record>, nextSequence: nat, gen: nat, pending: nat, r: Record)
    requires RecordsOk(pubs, nextSequence, gen, pending)
    requires GoodRecord(r, |pubs|) && r.at == gen && (r.winner.gen != gen ==> pending >= 1)
    ensures RecordsOk(pubs + [r], Increment(nextSequence), gen, 0)
  {
    var more := pubs + [r];
    assert more[..|pubs|] == pubs;
    forall g: nat | g < gen ensures Stale(more, g) <= if g % 2 == 1 then 1 else 0 {
      assert Stale(more, g) == Stale(pubs, g);
    }
  }

  lemma PublishKeepsRecords(s: State)
    requires InvEpoch(s) && InvWindow(s) && InvRecords(s) && s.pc.PublishApply?
    ensures InvRecords(Filter(s))
  {
    PublishStep(s);
    if s.best.Some? && s.best.value.epoch == s.pc.epoch {
      EpochDecides(s, s.best.value.gen, s.pc.gen);
      var r := Record(Render(s.nextSequence, s.best.value), s.best.value, s.window, s.gen);
      RecordKeepsOk(s.pubs, s.nextSequence, s.gen, PendingStale(s), r);
    }
  }

  lemma {:induction false} PushFromKeepsBooks(s: State, out: seq<Pair>, n: nat)
    requires s.segs != []
    ensures var t := PushFrom(s, out, n);
            t.gen == s.gen && t.pubs == s.pubs && t.nextSequence == s.nextSequence && t.pc == s.pc && t.best == s.best
            && t.window == s.window && t.segs == s.segs
    decreases |out| - n
  {
    if n >= |out| {
    } else {
      PushFromKeepsBooks(Push(s, Candidate(out[n], s.epoch, s.gen, |s.segs| - 1, n)), out, n + 1);
    }
  }

  lemma SameKeepsRecords(s: State, t: State)
    requires InvRecords(s) && SamePubs(s, t) && t.gen == s.gen
    requires PendingStale(t) <= PendingStale(s)
    ensures InvRecords(t)
  {}

  lemma FilterKeepsRecords(s: State)
    requires Ledger(s) && InvRecords(s) && Enabled(s, FilterStep)
    ensures InvRecords(Filter(s))
  {
    match s.pc
    case PublishApply(_, _, _) => PublishKeepsRecords(s);
    case ConsiderApply(_, _, _) => ConsiderStep(s); SameKeepsRecords(s, Filter(s));
    case AtSelect => QueueSteps(s); SameKeepsRecords(s, Filter(s));
    case Selected(CandidateQueue) => SetNeverOverflows(s); ReceiveStep(s); SameKeepsRecords(s, Filter(s));
    case Selected(_) => QueueSteps(s); SameKeepsRecords(s, Filter(s));
    case _ => ReadSteps(s); SameKeepsRecords(s, Filter(s));
  }

  lemma BeginKeepsRecords(s: State)
    requires InvEpoch(s) && InvRecords(s) && !s.active && s.segs != []
    ensures InvRecords(Apply(s, Begin))
  {
    SwitchKeepsOk(s.pubs, s.nextSequence, s.gen, PendingStale(s), PendingStale(Apply(s, Begin)));
  }

  lemma FinishKeepsRecords(s: State, id: nat)
    requires InvRecords(s) && s.best.None? && Enabled(s, EndFinish(id)) && s.segs != []
    ensures InvRecords(Apply(s, EndFinish(id)))
  {
    SwitchKeepsOk(s.pubs, s.nextSequence, s.gen, PendingStale(s), 0);
  }

  lemma ApplyKeepsRecords(s: State, a: Action)
    requires Ledger(s) && InvRecords(s) && Enabled(s, a)
    ensures InvRecords(Apply(s, a))
  {
    match a
    case Begin => if !s.active { BeginKeepsRecords(s); }
    case EndFinish(id) => FinishSettles(s, id); FinishKeepsRecords(s, id);
    case InitReset => SameKeepsRecords(s, Apply(s, a));
    case FilterStep => FilterKeepsRecords(s);
    case OverrideFeed(data) => if s.active && !s.closing { FeedKeepsRecords(s, data); }
    case UartFeed(data) => if !s.active { FeedKeepsRecords(s, data); }
    case _ => EdgeSteps(s, a); SameKeepsRecords(s, Apply(s, a));
  }

  lemma FeedKeepsRecords(s: State, data: seq<byte>)
    requires s.segs != [] && InvRecords(s)
    ensures InvRecords(Feed(s, data))
  {
    var k := |s.segs| - 1;
    var bytes := s.segs[k].bytes + data;
    PushFromKeepsBooks(s.(segs := s.segs[k := Segment(s.segs[k].gen, bytes, Emitted(bytes))]), Emitted(bytes), |s.segs[k].out|);
  }

  // ---------------------------------------------------------------- provenance

  /** c is the n-th candidate of a segment of its generation. */
  predicate Sourced(segs: seq<Segment>, c: Candidate) {
    c.seg < |segs| && segs[c.seg].gen == c.gen && c.n < |segs[c.seg].out| && segs[c.seg].out[c.n] == c.pair
  }

  predicate Earlier(c: Candidate, seg: nat, n: nat) {
    c.seg < seg || (c.seg == seg && c.n < n)
  }

  /** The accepted candidates come from the segments, each at most once, in stream order. */
  predicate Ordered(accepted: seq<Candidate>, segs: seq<Segment>) {
    && (forall i :: 0 <= i < |accepted| ==> Sourced(segs, accepted[i]))
    && (forall i, j :: 0 <= i < j < |accepted| ==> Earlier(accepted[i], accepted[j].seg, accepted[j].n))
  }

  ghost predicate Parsed(segs: seq<Segment>) {
    forall k :: 0 <= k < |segs| ==> segs[k].out == Emitted(segs[k].bytes)
  }

  /** The last segment's candidates are those of its bytes. */
  ghost predicate Current(segs: seq<Segment>) {
    segs != [] && segs[|segs| - 1].out == Emitted(segs[|segs| - 1].bytes)
  }

  predicate AllIn(q: seq<Candidate>, accepted: seq<Candidate>) {
    forall i :: 0 <= i < |q| ==> q[i] in accepted
  }

  predicate PubsIn(pubs: seq<Record>, accepted: seq<Candidate>) {
    forall i :: 0 <= i < |pubs| ==> AllIn(pubs[i].window, accepted)
  }

  /** Whatever the pipeline holds or has published was accepted. */
  predicate Kept(s: State) {
    AllIn(s.candidates, s.accepted) && AllIn(Hand(s), s.accepted) && AllIn(s.window, s.accepted) && PubsIn(s.pubs, s.accepted)
  }

  ghost predicate Traced(gen: nat, segs: seq<Segment>, accepted: seq<Candidate>) {
    segs != [] && segs[|segs| - 1].gen == gen && Parsed(segs) && Ordered(accepted, segs)
  }

  ghost predicate InvSource(s: State) {
    Traced(s.gen, s.segs, s.accepted) && Kept(s)
  }

  lemma PushKeepsOrder(s: State, c: Candidate)
    requires Ordered(s.accepted, s.segs) && Sourced(s.segs, c)
    requires forall i :: 0 <= i < |s.accepted| ==> Earlier(s.accepted[i], c.seg, c.n)
    ensures var t := Push(s, c);
            Ordered(t.accepted, s.segs) && forall i :: 0 <= i < |t.accepted| ==> Earlier(t.accepted[i], c.seg, c.n + 1)
  {}

  lemma PushKeepsKept(s: State, c: Candidate)
    requires Kept(s)
    ensures Kept(Push(s, c))
  {}

  lemma {:induction false} PushFromKeepsSource(s: State, out: seq<Pair>, n: nat)
    requires s.segs != [] && Kept(s) && Ordered(s.accepted, s.segs)
    requires var k := |s.segs| - 1; s.segs[k].gen == s.gen && s.segs[k].out == out
    requires forall i :: 0 <= i < |s.accepted| ==> Earlier(s.accepted[i], |s.segs| - 1, n)
    ensures var t := PushFrom(s, out, n); Kept(t) && Ordered(t.accepted, t.segs) && t.segs == s.segs && t.gen == s.gen
    decreases |out| - n
  {
    if n >= |out| {
    } else {
      var c := Candidate(out[n], s.epoch, s.gen, |s.segs| - 1, n);
      PushKeepsOrder(s, c);
      PushKeepsKept(s, c);
      PushFromKeepsSource(Push(s, c), out, n + 1);
      assert PushFrom(s, out, n) == PushFrom(Push(s, c), out, n + 1);
    }
  }

  /** More bytes keep what the bytes so far gave. */
  lemma GrowKeepsOrder(accepted: seq<Candidate>, segs: seq<Segment>, seg: Segment)
    requires segs != [] && Ordered(accepted, segs)
    requires var last := segs[|segs| - 1]; seg.gen == last.gen && last.out <= seg.out
    ensures Ordered(accepted, segs[|segs| - 1 := seg])
    ensures forall i :: 0 <= i < |accepted| ==> Earlier(accepted[i], |segs| - 1, |segs[|segs| - 1].out|)
  {}

  lemma FeedKeepsSource(s: State, data: seq<byte>)
    requires InvSource(s)
    ensures InvSource(Feed(s, data))
  {
    var k := |s.segs| - 1;
    var bytes := s.segs[k].bytes + data;
    var seg := Segment(s.segs[k].gen, bytes, Emitted(bytes));
    EmittedGrows(s.segs[k].bytes, data);
    GrowKeepsOrder(s.accepted, s.segs, seg);
    var segs := s.segs[k := seg];
    assert Parsed(segs);
    PushFromKeepsSource(s.(segs := segs), seg.out, |s.segs[k].out|);
  }

  lemma ResetKeepsOrder(accepted: seq<Candidate>, segs: seq<Segment>, seg: Segment)
    requires Ordered(accepted, segs)
    ensures Ordered(accepted, segs + [seg])
  {}

  lemma ResetKeepsSource(s: State, t: State)
    requires InvSource(s)
    requires t.segs == s.segs + [Segment(t.gen, [], [])] && t.accepted == s.accepted && t.pubs == s.pubs
    requires t.candidates == s.candidates && t.pc == s.pc && t.window == s.window
    ensures InvSource(t)
  {
    NothingFed();
    ResetKeepsOrder(s.accepted, s.segs, Segment(t.gen, [], []));
    assert Kept(t);
  }

  lemma FilterKeepsSource(s: State)
    requires Core(s) && InvSource(s) && Enabled(s, FilterStep)
    ensures InvSource(Filter(s))
  {
    FilterKeepsKept(s);
    FilterKeepsHistory(s);
  }

  lemma FilterKeepsHistory(s: State)
    requires Core(s) && Enabled(s, FilterStep)
    ensures SameHistory(s, Filter(s))
  {
    match s.pc
    case Selected(CandidateQueue) => SetNeverOverflows(s); ReceiveStep(s);
    case ConsiderApply(_, _, _) => ConsiderStep(s);
    case PublishApply(_, _, _) => PublishStep(s);
    case AtSelect => QueueSteps(s);
    case Selected(_) => QueueSteps(s);
    case _ => ReadSteps(s);
  }

  lemma FilterKeepsKept(s: State)
    requires Core(s) && Kept(s) && Enabled(s, FilterStep)
    ensures Kept(Filter(s))
  {
    match s.pc
    case Selected(CandidateQueue) => SetNeverOverflows(s); ReceiveStep(s);
    case ConsiderApply(_, _, _) => ConsiderStep(s);
    case PublishApply(_, _, _) => PublishStep(s);
    case AtSelect => QueueSteps(s);
    case Selected(_) => QueueSteps(s);
    case _ => ReadSteps(s);
  }

  lemma ApplyKeepsSource(s: State, a: Action)
    requires Core(s) && InvSource(s) && Enabled(s, a)
    ensures InvSource(Apply(s, a))
  {
    match a
    case Begin => if !s.active { ResetKeepsSource(s, Apply(s, a)); }
    case EndFinish(id) => ResetKeepsSource(s, Apply(s, a));
    case InitReset => ResetKeepsSource(s, Apply(s, a));
    case FilterStep => FilterKeepsSource(s);
    case OverrideFeed(data) => if s.active && !s.closing { FeedKeepsSource(s, data); }
    case UartFeed(data) => if !s.active { FeedKeepsSource(s, data); }
    case _ => EdgeSteps(s, a);
  }
}
