/** What becomes of the candidates: which ones a publication stands for, and where the others are. */
module Windows {
  import opened Nmea
  import opened Framing
  import opened Protocol
  import opened Switching

  // ---------------------------------------------------------------- windows

  /** The candidate a window is published for. */
  function Champion(w: seq<Candidate>): (c: Candidate)
    requires w != []
    ensures c in w
  {
    var n := |w| - 1;
    if n == 0 then w[0]
    else if w[n].pair.hdop < Champion(w[..n]).pair.hdop then w[n] else Champion(w[..n])
  }

  /** It is the earliest one of lowest HDOP. */
  lemma {:induction false} ChampionIsEarliestBest(w: seq<Candidate>) returns (k: nat)
    requires w != []
    ensures k < |w| && Champion(w) == w[k]
    ensures forall j :: 0 <= j < |w| ==> w[k].pair.hdop <= w[j].pair.hdop
    ensures forall j :: 0 <= j < k ==> w[k].pair.hdop < w[j].pair.hdop
  {
    var n := |w| - 1;
    if n == 0 {
      k := 0;
    } else {
      k := ChampionIsEarliestBest(w[..n]);
      if w[n].pair.hdop < w[k].pair.hdop {
        k := n;
      }
    }
  }

  predicate Uniform(w: seq<Candidate>, g: nat) {
    forall i :: 0 <= i < |w| ==> w[i].gen == g
  }

  /** The candidate held as best is the champion of those considered since the window opened. */
  predicate WindowOk(best: Option<Candidate>, window: seq<Candidate>) {
    if best.None? then window == []
    else window != [] && best.value == Champion(window) && Uniform(window, best.value.gen)
  }

  predicate InvWindow(s: State) {
    WindowOk(s.best, s.window)
  }

  /** The open window, as far as it is of generation g. */
  function OpenOf(best: Option<Candidate>, window: seq<Candidate>, g: nat): seq<Candidate> {
    if best.Some? && best.value.gen == g then window else []
  }

  function OpenWindow(s: State): seq<Candidate> {
    OpenOf(s.best, s.window, s.gen)
  }

  /** Considering c under the epoch of generation g keeps the window in order, and c joins it unless
      it is of an older generation. */
  lemma ChooseKeepsWindow(best: Option<Candidate>, window: seq<Candidate>, c: Candidate, e: nat, g: nat)
    requires WindowOk(best, window)
    requires c.epoch == e <==> c.gen == g
    requires best.Some? ==> (best.value.epoch == e <==> best.value.gen == g)
    ensures var (b, w) := Choose(best, window, c, e); WindowOk(b, w)
  {}

  lemma ChooseOpens(best: Option<Candidate>, window: seq<Candidate>, c: Candidate, e: nat, g: nat, now: nat)
    requires c.epoch == e <==> c.gen == g
    requires best.Some? ==> (best.value.epoch == e <==> best.value.gen == g)
    requires c.gen <= g <= now && (best.Some? ==> best.value.gen <= g)
    ensures var (b, w) := Choose(best, window, c, e);
            OpenOf(b, w, now) == OpenOf(best, window, now) + if c.gen == now then [c] else []
  {}

  // ---------------------------------------------------------------- conservation

  /** The candidates of generation g among q, in order. */
  function Of(q: seq<Candidate>, g: nat): seq<Candidate> {
    if q == [] then [] else Of(q[..|q| - 1], g) + (if q[|q| - 1].gen == g then [q[|q| - 1]] else [])
  }

  lemma {:induction false} OfConcat(p: seq<Candidate>, q: seq<Candidate>, g: nat)
    ensures Of(p + q, g) == Of(p, g) + Of(q, g)
  {
    if q == [] {
      assert p + q == p;
    } else {
      OfConcat(p, q[..|q| - 1], g);
      assert (p + q)[..|p + q| - 1] == p + q[..|q| - 1];
    }
  }

  lemma OfOne(c: Candidate, g: nat)
    ensures Of([c], g) == if c.gen == g then [c] else []
  {}

  lemma {:induction false} OfNone(q: seq<Candidate>, g: nat)
    requires forall i :: 0 <= i < |q| ==> q[i].gen < g
    ensures Of(q, g) == []
  {
    if q == [] {
    } else {
      OfNone(q[..|q| - 1], g);
    }
  }

  /** The candidates the publications of generation g stand for, window after window. */
  function Published(pubs: seq<Record>, g: nat): seq<Candidate> {
    if pubs == [] then []
    else
      var r := pubs[|pubs| - 1];
      Published(pubs[..|pubs| - 1], g) + (if r.winner.gen == g then r.window else [])
  }

  lemma {:induction false} PublishedNone(pubs: seq<Record>, g: nat)
    requires forall i :: 0 <= i < |pubs| ==> pubs[i].winner.gen < g
    ensures Published(pubs, g) == []
  {
    if pubs == [] {
    } else {
      PublishedNone(pubs[..|pubs| - 1], g);
    }
  }

  function Hand(s: State): seq<Candidate> {
    match s.pc
    case ConsiderRead(c) => [c]
    case ConsiderApply(c, _, _) => [c]
    case _ => []
  }

  /** The candidates of a run: accepted into the queue, published window by window, in the open
      window, in the filter's hand, still queued. */
  datatype Books = Books(gen: nat, accepted: seq<Candidate>, pubs: seq<Record>,
                         open: seq<Candidate>, hand: seq<Candidate>, queue: seq<Candidate>)

  function BooksOf(s: State): Books {
    Books(s.gen, s.accepted, s.pubs, OpenWindow(s), Hand(s), s.candidates)
  }

  /** An upload session that is over: the candidates accepted in it are those its publications stand for. */
  predicate Settled(accepted: seq<Candidate>, pubs: seq<Record>, g: nat) {
    Of(accepted, g) == Published(pubs, g)
  }

  predicate AllSettled(accepted: seq<Candidate>, pubs: seq<Record>, gen: nat) {
    forall g: nat :: g < gen && g % 2 == 1 ==> Settled(accepted, pubs, g)
  }

  /** Every candidate accepted in the current generation is, in order of arrival, in a published
      window, in the open one, in hand or in the queue; and all upload sessions that are over are settled. */
  predicate Balanced(b: Books) {
    && (forall i :: 0 <= i < |b.accepted| ==> b.accepted[i].gen <= b.gen)
    && (forall i :: 0 <= i < |b.pubs| ==> b.pubs[i].winner.gen <= b.gen)
    && Of(b.accepted, b.gen) == Published(b.pubs, b.gen) + (b.open + (Of(b.hand, b.gen) + Of(b.queue, b.gen)))
    && AllSettled(b.accepted, b.pubs, b.gen)
  }

  predicate InvConserve(s: State) {
    Balanced(BooksOf(s))
  }

  predicate Ledger(s: State) {
    Core(s) && InvWindow(s) && InvConserve(s)
  }

  lemma AcceptKeepsBalance(b: Books, c: Candidate)
    requires Balanced(b) && c.gen == b.gen
    ensures Balanced(b.(accepted := b.accepted + [c], queue := b.queue + [c]))
  {
    OfAppend(b.accepted, c);
    OfAppend(b.queue, c);
    Append(Published(b.pubs, b.gen), b.open, Of(b.hand, b.gen), Of(b.queue, b.gen), [c]);
    forall g: nat | g < b.gen && g % 2 == 1 ensures Settled(b.accepted + [c], b.pubs, g) {
      assert Settled(b.accepted, b.pubs, g);
    }
  }

  lemma Append<T>(p: seq<T>, w: seq<T>, h: seq<T>, q: seq<T>, c: seq<T>)
    ensures p + (w + (h + (q + c))) == (p + (w + (h + q))) + c
  {}

  lemma OfAppend(q: seq<Candidate>, c: Candidate)
    ensures forall g :: Of(q + [c], g) == Of(q, g) + if c.gen == g then [c] else []
  {}

  lemma PushKeepsLedger(s: State, c: Candidate)
    requires Ledger(s) && !s.closing && c.epoch == s.epoch && c.gen == s.gen
    ensures Ledger(Push(s, c))
  {
    PushKeepsCore(s, c);
    AcceptKeepsBalance(BooksOf(s), c);
  }

  lemma {:induction false} PushFromKeepsLedger(s: State, out: seq<Pair>, n: nat)
    requires Ledger(s) && !s.closing
    ensures Ledger(PushFrom(s, out, n))
    decreases |out| - n
  {
    if n >= |out| {
    } else {
      var c := Candidate(out[n], s.epoch, s.gen, |s.segs| - 1, n);
      PushKeepsLedger(s, c);
      PushFromKeepsLedger(Push(s, c), out, n + 1);
    }
  }

  lemma FeedKeepsLedger(s: State, data: seq<byte>)
    requires Ledger(s) && !s.closing
    ensures Ledger(Feed(s, data))
  {
    var k := |s.segs| - 1;
    var bytes := s.segs[k].bytes + data;
    var out := Emitted(bytes);
    var t := s.(segs := s.segs[k := Segment(s.segs[k].gen, bytes, out)]);
    SegmentsKeepCore(s, t.segs);
    SegmentsKeepConserve(s, t.segs);
    PushFromKeepsLedger(t, out, |s.segs[k].out|);
  }

  lemma SegmentsKeepConserve(s: State, segs: seq<Segment>)
    requires InvConserve(s)
    ensures InvConserve(s.(segs := segs))
  {}

  /** Nothing is accepted, published or queued for a generation that has not begun. */
  lemma SwitchKeepsBalance(b: Books)
    requires Balanced(b)
    requires b.gen % 2 == 1 ==> Settled(b.accepted, b.pubs, b.gen)
    requires forall i :: 0 <= i < |b.queue| ==> b.queue[i].gen <= b.gen
    requires forall i :: 0 <= i < |b.hand| ==> b.hand[i].gen <= b.gen
    ensures Balanced(b.(gen := b.gen + 1, open := []))
  {
    OfNone(b.accepted, b.gen + 1);
    PublishedNone(b.pubs, b.gen + 1);
    OfNone(b.queue, b.gen + 1);
    OfNone(b.hand, b.gen + 1);
  }

  lemma BeginKeepsLedger(s: State)
    requires Ledger(s)
    ensures Ledger(Apply(s, Begin))
  {
    BeginKeepsCore(s);
    if !s.active {
      SwitchKeepsBalance(BooksOf(s));
    }
  }

  /** When the end of an override returns, its session is settled. */
  lemma FinishSettles(s: State, id: nat)
    requires Ledger(s) && Enabled(s, EndFinish(id))
    ensures Settled(s.accepted, s.pubs, s.gen) && Drained(s)
  {}

  lemma FinishKeepsLedger(s: State, id: nat)
    requires Ledger(s) && Enabled(s, EndFinish(id))
    ensures Ledger(Apply(s, EndFinish(id)))
  {
    FinishKeepsCore(s, id);
    FinishSettles(s, id);
    SwitchKeepsBalance(BooksOf(s));
  }

  lemma ReceiveKeepsBalance(b: Books)
    requires Balanced(b) && b.queue != [] && b.hand == []
    ensures Balanced(b.(hand := [b.queue[0]], queue := b.queue[1..]))
  {
    assert b.queue == [b.queue[0]] + b.queue[1..];
    OfConcat([b.queue[0]], b.queue[1..], b.gen);
    assert [] + Of(b.queue, b.gen) == Of(b.queue, b.gen);
  }

  lemma ConsiderKeepsBalance(b: Books)
    requires Balanced(b)
    ensures Balanced(b.(open := b.open + Of(b.hand, b.gen), hand := []))
  {}

  lemma Shift<T>(p: seq<T>, w: seq<T>, h: seq<T>, q: seq<T>)
    ensures p + (w + (h + q)) == p + ((w + h) + ([] + q))
    ensures p + (w + (h + q)) == (p + w) + ([] + (h + q))
  {}

  /** Publishing closes the open window; a publication of the generation before counts for that one. */
  lemma PublishKeepsBalance(b: Books, r: Record)
    requires Balanced(b)
    requires if r.winner.gen == b.gen then r.window == b.open else b.open == [] && r.winner.gen + 1 == b.gen && b.gen % 2 == 1
    ensures Balanced(b.(pubs := b.pubs + [r], open := []))
  {
    var more := b.pubs + [r];
    assert more[..|b.pubs|] == b.pubs;
    assert forall g :: Published(more, g) == Published(b.pubs, g) + if r.winner.gen == g then r.window else [];
    Shift(Published(b.pubs, b.gen), b.open, Of(b.hand, b.gen), Of(b.queue, b.gen));
    forall g: nat | g < b.gen && g % 2 == 1 ensures Settled(b.accepted, more, g) {
      assert Settled(b.accepted, b.pubs, g);
    }
  }

  lemma PublishBooks(s: State, e: nat, g: nat)
    requires InvEpoch(s) && InvWindow(s) && s.pc.PublishApply? && s.pc.epoch == e && s.pc.gen == g
    ensures var t := Filter(s);
            && OpenWindow(t) == []
            && if s.best.Some? && s.best.value.epoch == e
               then t.pubs == s.pubs + [Record(Render(s.nextSequence, s.best.value), s.best.value, s.window, s.gen)]
               else t.pubs == s.pubs && OpenWindow(s) == []
  {}

  lemma PublishKeepsLedger(s: State)
    requires InvEpoch(s) && InvWindow(s) && InvConserve(s) && s.pc.PublishApply?
    ensures InvWindow(Filter(s)) && InvConserve(Filter(s))
  {
    var e, b := s.pc.epoch, BooksOf(s);
    PublishBooks(s, e, s.pc.gen);
    if s.best.Some? && s.best.value.epoch == e {
      var r := Record(Render(s.nextSequence, s.best.value), s.best.value, s.window, s.gen);
      PublishKeepsBalance(b, r);
      assert BooksOf(Filter(s)) == b.(pubs := b.pubs + [r], open := []);
    } else {
      assert BooksOf(Filter(s)) == b;
    }
  }

  /** What the bookkeeping sees of a state is the same in s and t. */
  predicate SameBooks(s: State, t: State) {
    && t.best == s.best && t.window == s.window && Hand(t) == Hand(s) && t.candidates == s.candidates
    && (t.pc.PublishApply? ==> t.pc.gen == s.gen || t.pc == s.pc)
    && SameHistory(s, t) && SamePubs(s, t)
  }

  predicate SameHistory(s: State, t: State) {
    t.gen == s.gen && t.accepted == s.accepted && t.segs == s.segs
  }

  predicate SamePubs(s: State, t: State) {
    t.pubs == s.pubs && t.nextSequence == s.nextSequence
  }

  lemma QueueSteps(s: State)
    requires Enabled(s, FilterStep) && (s.pc.AtSelect? || s.pc == Selected(TimerQueue) || s.pc == Selected(ControlQueue))
    ensures SameBooks(s, Filter(s))
  {}

  lemma ReadSteps(s: State)
    requires s.pc.ConsiderRead? || s.pc.FlushRead? || s.pc.PublishRead? || s.pc.AckGive?
    ensures SameBooks(s, Filter(s))
  {}

  lemma ReceiveStep(s: State)
    requires s.pc == Selected(CandidateQueue) && s.candidates != []
    ensures var t := Filter(s);
            SameHistory(s, t) && SamePubs(s, t) && t.best == s.best && t.window == s.window
            && t.pc == ConsiderRead(s.candidates[0]) && t.candidates == s.candidates[1..]
  {}

  lemma ConsiderStep(s: State)
    requires s.pc.ConsiderApply?
    ensures var t := Filter(s);
            SameHistory(s, t) && SamePubs(s, t) && t.candidates == s.candidates && t.pc == AtSelect
            && (t.best, t.window) == Choose(s.best, s.window, s.pc.c, s.pc.epoch)
  {}

  lemma PublishStep(s: State)
    requires s.pc.PublishApply?
    ensures var t := Filter(s);
            && SameHistory(s, t) && t.candidates == s.candidates && t.best == None && t.window == []
            && (t.pc.AtSelect? || t.pc.AckGive?)
            && if s.best.Some? && s.best.value.epoch == s.pc.epoch
               then t.pubs == s.pubs + [Record(Render(s.nextSequence, s.best.value), s.best.value, s.window, s.gen)]
                    && t.nextSequence == Increment(s.nextSequence)
               else SamePubs(s, t)
  {}

  /** The steps outside the filter that neither feed nor switch. */
  lemma EdgeSteps(s: State, a: Action)
    requires s.segs != [] && Enabled(s, a)
    requires a.EndClose? || a.EndDiscard? || a.EndSend? || a.EndTakeAck? || a.TimerFires? || a.Dispatch?
    ensures SameBooks(s, Apply(s, a)) && Apply(s, a).pc == s.pc
  {}

  lemma ReceiveKeepsLedger(s: State)
    requires InvWindow(s) && InvConserve(s) && s.pc == Selected(CandidateQueue) && s.candidates != []
    ensures InvWindow(Filter(s)) && InvConserve(Filter(s))
  {
    ReceiveKeepsBalance(BooksOf(s));
  }

  lemma ConsiderKeepsLedger(s: State)
    requires InvEpoch(s) && InvWindow(s) && InvConserve(s) && s.pc.ConsiderApply?
    ensures InvWindow(Filter(s)) && InvConserve(Filter(s))
  {
    var c, e, g, b := s.pc.c, s.pc.epoch, s.pc.gen, BooksOf(s);
    EpochDecides(s, c.gen, g);
    if s.best.Some? { EpochDecides(s, s.best.value.gen, g); }
    ChooseKeepsWindow(s.best, s.window, c, e, g);
    ChooseOpens(s.best, s.window, c, e, g, s.gen);
    OfOne(c, s.gen);
    ConsiderStep(s);
    ConsiderKeepsBalance(b);
    assert BooksOf(Filter(s)) == b.(open := b.open + Of(b.hand, b.gen), hand := []);
  }

  lemma SameKeepsLedger(s: State, t: State)
    requires InvWindow(s) && InvConserve(s) && SameBooks(s, t)
    ensures InvWindow(t) && InvConserve(t)
  {}

  lemma FilterKeepsLedger(s: State)
    requires Ledger(s) && Enabled(s, FilterStep)
    ensures Ledger(Filter(s))
  {
    FilterKeepsCore(s);
    match s.pc
    case Selected(CandidateQueue) => SetNeverOverflows(s); ReceiveKeepsLedger(s);
    case ConsiderApply(_, _, _) => ConsiderKeepsLedger(s);
    case PublishApply(_, _, _) => PublishKeepsLedger(s);
    case AtSelect => QueueSteps(s); SameKeepsLedger(s, Filter(s));
    case Selected(_) => QueueSteps(s); SameKeepsLedger(s, Filter(s));
    case _ => ReadSteps(s); SameKeepsLedger(s, Filter(s));
  }

  lemma ApplyKeepsLedger(s: State, a: Action)
    requires Ledger(s) && Enabled(s, a)
    ensures Ledger(Apply(s, a))
  {
    ApplyKeepsCore(s, a);
    match a
    case Begin => BeginKeepsLedger(s);
    case OverrideFeed(data) => if s.active && !s.closing { FeedKeepsLedger(s, data); }
    case UartFeed(data) => if !s.active { FeedKeepsLedger(s, data); }
    case EndFinish(id) => FinishKeepsLedger(s, id);
    case FilterStep => FilterKeepsLedger(s);
    case InitReset => assert BooksOf(Apply(s, a)) == BooksOf(s);
    case _ => EdgeSteps(s, a); SameKeepsLedger(s, Apply(s, a));
  }
}
