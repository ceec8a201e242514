/** In every run, the windows published for a session of either source are its accepted candidates from
    the first on, without gap and without repetition, a late window of the UART included. */
module Consecutive {
  import opened Nmea
  import opened Framing
  import opened Protocol
  import opened Switching
  import opened Windows
  import opened Publications
  import opened GnssRuns

  /** The candidates published for generation g are the first ones accepted in it. */
  predicate InOrder(accepted: seq<Candidate>, pubs: seq<Record>, g: nat) {
    Published(pubs, g) <= Of(accepted, g)
  }

  /** And so they remain if the window left open and the candidate left in hand are published with them. */
  predicate GoesOn(accepted: seq<Candidate>, pubs: seq<Record>, open: seq<Candidate>, late: seq<Candidate>, g: nat) {
    Published(pubs, g) + (open + late) <= Of(accepted, g)
  }

  /** The candidate that the filter will still consider under an epoch read before the last switch. */
  function LateHand(pc: FilterPc, gen: nat): seq<Candidate> {
    if pc.ConsiderApply? && pc.gen < gen && pc.c.gen == pc.gen then [pc.c] else []
  }

  predicate AllInOrder(accepted: seq<Candidate>, pubs: seq<Record>, gen: nat) {
    forall g: nat :: g < gen ==> InOrder(accepted, pubs, g)
  }

  /** What is left of the generation before the present one. */
  predicate LastGoesOn(s: State) {
    s.gen > 0 ==> GoesOn(s.accepted, s.pubs, OpenOf(s.best, s.window, s.gen - 1), LateHand(s.pc, s.gen), s.gen - 1)
  }

  predicate InvOrder(s: State) {
    AllInOrder(s.accepted, s.pubs, s.gen) && LastGoesOn(s)
  }

  lemma Prefixes<T>(p: seq<T>, x: seq<T>, y: seq<T>, q: seq<T>)
    requires p + (x + y) <= q
    ensures p <= q && p + (x + []) <= q && p + ([] + []) <= q
  {
    assert p == q[..|p|] && p + x == q[..|p + x|];
    assert x + [] == x && p + [] == p;
  }

  // ---------------------------------------------------------------- steps

  /** Nothing but the present generation's accepted candidates differs. */
  lemma SameOrder(s: State, t: State)
    requires InvOrder(s) && t.gen == s.gen && t.pubs == s.pubs && t.best == s.best && t.window == s.window
    requires LateHand(t.pc, t.gen) == LateHand(s.pc, s.gen)
    requires forall g: nat :: g < s.gen ==> Of(t.accepted, g) == Of(s.accepted, g)
    ensures InvOrder(t)
  {
    forall g: nat | g < t.gen ensures InOrder(t.accepted, t.pubs, g) {
      assert InOrder(s.accepted, s.pubs, g);
    }
  }

  lemma {:induction false} PushFromKeepsOlder(s: State, out: seq<Pair>, n: nat)
    requires s.segs != []
    ensures var t := PushFrom(s, out, n); forall g: nat :: g < s.gen ==> Of(t.accepted, g) == Of(s.accepted, g)
    decreases |out| - n
  {
    if n >= |out| {
    } else {
      var c := Candidate(out[n], s.epoch, s.gen, |s.segs| - 1, n);
      OfAppend(s.accepted, c);
      PushFromStep(s, out, n);
      PushFromKeepsOlder(Push(s, c), out, n + 1);
    }
  }

  lemma FeedKeepsOrder(s: State, data: seq<byte>)
    requires InvOrder(s) && s.segs != []
    ensures InvOrder(Feed(s, data))
  {
    var k := |s.segs| - 1;
    var bytes := s.segs[k].bytes + data;
    var u := s.(segs := s.segs[k := Segment(s.segs[k].gen, bytes, Emitted(bytes))]);
    PushFromKeepsBooks(u, Emitted(bytes), |s.segs[k].out|);
    PushFromKeepsOlder(u, Emitted(bytes), |s.segs[k].out|);
    SameOrder(s, Feed(s, data));
  }

  /** A switch leaves the present window, and what is in hand, behind. */
  lemma SwitchKeepsOrder(s: State, t: State)
    requires InvOrder(s) && InvConserve(s) && InvEpoch(s)
    requires t.gen == s.gen + 1 && t.accepted == s.accepted && t.pubs == s.pubs
    requires t.best == s.best && t.window == s.window && t.pc == s.pc
    requires s.pc.ConsiderApply? ==> s.pc.gen == s.gen
    ensures InvOrder(t)
  {
    if s.pc.ConsiderApply? { OfOne(s.pc.c, s.gen); }
    assert LateHand(t.pc, t.gen) == [] || LateHand(t.pc, t.gen) == Of(Hand(s), s.gen);
    FirstParts(Published(s.pubs, s.gen), OpenWindow(s), Of(Hand(s), s.gen), Of(s.candidates, s.gen));
    forall g: nat | g < t.gen ensures InOrder(t.accepted, t.pubs, g) {
      assert g < s.gen ==> InOrder(s.accepted, s.pubs, g);
    }
  }

  lemma FirstParts<T>(p: seq<T>, w: seq<T>, h: seq<T>, q: seq<T>)
    ensures var all := p + (w + (h + q)); p <= all && p + (w + []) <= all && p + (w + h) <= all
  {
    var all := p + (w + (h + q));
    assert all[..|p|] == p && all[..|p + w|] == p + (w + []) && all[..|p + w + h|] == p + (w + h);
  }

  lemma ConsiderKeepsOrder(s: State)
    requires InvEpoch(s) && InvWindow(s) && InvOrder(s) && s.pc.ConsiderApply?
    ensures InvOrder(Filter(s))
  {
    var c, e, g := s.pc.c, s.pc.epoch, s.pc.gen;
    ConsiderStep(s);
    EpochDecides(s, c.gen, g);
    if s.best.Some? { EpochDecides(s, s.best.value.gen, g); }
    if g < s.gen {
      ChooseOpens(s.best, s.window, c, e, g, s.gen - 1);
      assert OpenOf(s.best, s.window, g) + LateHand(s.pc, s.gen) + [] == OpenOf(s.best, s.window, g) + LateHand(s.pc, s.gen);
    } else if s.gen > 0 {
      Prefixes(Published(s.pubs, s.gen - 1), OpenOf(s.best, s.window, s.gen - 1), LateHand(s.pc, s.gen),
               Of(s.accepted, s.gen - 1));
    }
  }

  lemma PublishKeepsOrder(s: State)
    requires InvEpoch(s) && InvWindow(s) && InvOrder(s) && s.pc.PublishApply?
    ensures InvOrder(Filter(s))
  {
    PublishStep(s);
    if s.gen > 0 {
      Prefixes(Published(s.pubs, s.gen - 1), OpenOf(s.best, s.window, s.gen - 1), [], Of(s.accepted, s.gen - 1));
    }
    if s.best.Some? && s.best.value.epoch == s.pc.epoch {
      RecordKeepsOrder(s, Filter(s), Record(Render(s.nextSequence, s.best.value), s.best.value, s.window, s.gen));
    }
  }

  lemma RecordKeepsOrder(s: State, t: State, r: Record)
    requires InvEpoch(s) && InvOrder(s) && s.best == Some(r.winner) && s.window == r.window
    requires LateHand(s.pc, s.gen) == LateHand(t.pc, t.gen) == []
    requires t.gen == s.gen && t.accepted == s.accepted && t.best == None && t.window == [] && t.pubs == s.pubs + [r]
    ensures InvOrder(t)
  {
    AppendKeepsOrder(s.accepted, s.pubs, r, s.gen);
  }

  lemma AppendKeepsOrder(accepted: seq<Candidate>, pubs: seq<Record>, r: Record, gen: nat)
    requires AllInOrder(accepted, pubs, gen) && gen <= r.winner.gen + 1
    requires gen == r.winner.gen + 1 ==> Published(pubs, gen - 1) + (r.window + []) <= Of(accepted, gen - 1)
    ensures AllInOrder(accepted, pubs + [r], gen)
    ensures gen > 0 ==> Published(pubs + [r], gen - 1) <= Of(accepted, gen - 1)
  {
    assert (pubs + [r])[..|pubs|] == pubs;
    forall g: nat | g < gen ensures InOrder(accepted, pubs + [r], g) {
      assert InOrder(accepted, pubs, g);
      assert r.window + [] == r.window;
    }
    assert gen > 0 ==> InOrder(accepted, pubs + [r], gen - 1);
  }

  lemma FilterKeepsOrder(s: State)
    requires Ledger(s) && InvOrder(s) && Enabled(s, FilterStep)
    ensures InvOrder(Filter(s))
  {
    match s.pc
    case PublishApply(_, _, _) => PublishKeepsOrder(s);
    case ConsiderApply(_, _, _) => ConsiderKeepsOrder(s);
    case Selected(CandidateQueue) => SetNeverOverflows(s); ReceiveStep(s); SameOrder(s, Filter(s));
    case AtSelect => QueueSteps(s); SameOrder(s, Filter(s));
    case Selected(_) => QueueSteps(s); SameOrder(s, Filter(s));
    case _ => ReadSteps(s); SameOrder(s, Filter(s));
  }

  lemma ApplyKeepsOrder(s: State, a: Action)
    requires Ledger(s) && InvOrder(s) && Enabled(s, a)
    ensures InvOrder(Apply(s, a))
  {
    match a
    case Begin => if !s.active { SwitchKeepsOrder(s, Apply(s, a)); }
    case EndFinish(id) => FinishSettles(s, id); SwitchKeepsOrder(s, Apply(s, a));
    case OverrideFeed(data) => if s.active && !s.closing { FeedKeepsOrder(s, data); }
    case UartFeed(data) => if !s.active { FeedKeepsOrder(s, data); }
    case FilterStep => FilterKeepsOrder(s);
    case InitReset => SameOrder(s, Apply(s, a));
    case _ => EdgeSteps(s, a); SameOrder(s, Apply(s, a));
  }

  // ---------------------------------------------------------------- runs

  lemma {:induction false} AlwaysInOrder(acts: seq<Action>, s: State)
    requires After(acts) == Some(s)
    ensures InvOrder(s)
  {
    if acts == [] {
    } else {
      var before, a := LastStep(acts, s);
      AlwaysInOrder(acts[..|acts| - 1], before);
      AlwaysGood(acts[..|acts| - 1], before);
      ApplyKeepsOrder(before, a);
    }
  }

  /** In every run and for every session of the UART or of an upload, over or not, the candidates its
      publications stand for, window after window, are the first candidates accepted in it. */
  lemma PublishedInOrder(acts: seq<Action>, s: State, g: nat)
    requires After(acts) == Some(s) && g <= s.gen
    ensures Published(s.pubs, g) <= Of(s.accepted, g)
  {
    AlwaysInOrder(acts, s);
    AlwaysConserved(acts, s);
    OrderAt(s, g);
  }

  lemma OrderAt(s: State, g: nat)
    requires InvOrder(s) && InvConserve(s) && g <= s.gen
    ensures Published(s.pubs, g) <= Of(s.accepted, g)
  {
    if g < s.gen {
      assert InOrder(s.accepted, s.pubs, g);
    }
  }
}
