/** The promises of main/gnss.c over whole runs: whatever the actions and however they interleave. */
module GnssRuns {
  import opened Nmea
  import opened Basics
  import opened NmeaFields
  import opened Framing
  import opened Protocol
  import opened Switching
  import opened Windows
  import opened Publications

  ghost predicate Good(s: State) {
    Ledger(s) && InvRecords(s) && InvSource(s)
  }

  lemma GoodInitially()
    ensures Good(INITIAL)
  {}

  lemma ApplyKeepsGood(s: State, a: Action)
    requires Good(s) && Enabled(s, a)
    ensures Good(Apply(s, a))
  {
    ApplyKeepsLedger(s, a);
    ApplyKeepsRecords(s, a);
    ApplyKeepsSource(s, a);
  }

  /** Every state of every run is good. */
  lemma {:induction false} AlwaysGood(acts: seq<Action>, s: State)
    requires After(acts) == Some(s)
    ensures Good(s)
  {
    if acts == [] {
      GoodInitially();
    } else {
      var before, a := LastStep(acts, s);
      AlwaysGood(acts[..|acts| - 1], before);
      ApplyKeepsGood(before, a);
    }
  }

  lemma LastStep(acts: seq<Action>, s: State) returns (before: State, a: Action)
    requires acts != [] && After(acts) == Some(s)
    ensures a == acts[|acts| - 1] && After(acts[..|acts| - 1]) == Some(before)
    ensures before.segs != [] && Enabled(before, a) && s == Apply(before, a)
  {
    assert After(acts) == Extended(acts);
    before, a := After(acts[..|acts| - 1]).value, acts[|acts| - 1];
  }

  lemma Then(acts: seq<Action>, s: State, a: Action)
    requires After(acts) == Some(s) && s.segs != [] && Enabled(s, a)
    ensures After(acts + [a]) == Some(Apply(s, a))
  {
    assert (acts + [a])[..|acts + [a]| - 1] == acts;
    assert After(acts + [a]) == Extended(acts + [a]);
  }

  lemma BeforeLast(acts: seq<Action>, more: seq<Action>, t: State) returns (u: State)
    requires more != [] && After(acts + more) == Some(t)
    ensures var a := more[|more| - 1];
            && After(acts + more[..|more| - 1]) == Some(u) && u.segs != [] && Enabled(u, a) && t == Apply(u, a)
  {
    ButLast(acts, more);
    var a;
    u, a := LastStep(acts + more, t);
  }

  lemma ButLast<T>(a: seq<T>, b: seq<T>)
    requires b != []
    ensures var n := |a + b| - 1; n == |a| + |b| - 1 && (a + b)[..n] == a + b[..|b| - 1] && (a + b)[n] == b[|b| - 1]
  {}

  lemma AlwaysCore(acts: seq<Action>, s: State)
    requires After(acts) == Some(s)
    ensures Core(s)
  {
    AlwaysGood(acts, s);
  }

  lemma AlwaysRecords(acts: seq<Action>, s: State)
    requires After(acts) == Some(s)
    ensures InvRecords(s) && InvSource(s)
  {
    AlwaysGood(acts, s);
  }

  lemma AlwaysConserved(acts: seq<Action>, s: State)
    requires After(acts) == Some(s)
    ensures InvConserve(s)
  {
    AlwaysGood(acts, s);
  }

  // ---------------------------------------------------------------- source switches

  ghost predicate Holds(s: State, c: Candidate) {
    c in s.candidates || c in Hand(s) || s.best == Some(c)
  }

  /** Whatever the number of switches and wraps of the 32-bit epoch, a candidate the pipeline holds
      bears the current epoch exactly if it was parsed since the last switch; when no override is
      active there is no other, and otherwise it is from just before the override began. */
  lemma EpochNeverConfuses(acts: seq<Action>, s: State, c: Candidate)
    requires After(acts) == Some(s) && Holds(s, c)
    ensures (c.epoch == s.epoch <==> c.gen == s.gen) && (!s.active ==> c.epoch == s.epoch)
    ensures c.gen == s.gen || (c.gen + 1 == s.gen && c.epoch == EpochOf(s.gen - 1))
    ensures s.active <==> s.gen % 2 == 1
  {
    AlwaysCore(acts, s);
    HeldTellsEpoch(s, c);
  }

  lemma HeldTellsEpoch(s: State, c: Candidate)
    requires InvEpoch(s) && Holds(s, c)
    ensures (c.epoch == s.epoch <==> c.gen == s.gen) && (!s.active ==> c.epoch == s.epoch)
    ensures c.gen == s.gen || (c.gen + 1 == s.gen && c.epoch == EpochOf(s.gen - 1))
    ensures s.active <==> s.gen % 2 == 1
  {}

  /** The set of capacity ten never overflows, and every receive after a select finds its item. */
  lemma QueueSetConsistent(acts: seq<Action>, s: State)
    requires After(acts) == Some(s)
    ensures |s.markers| <= SET_LENGTH && |s.candidates| <= CANDIDATE_QUEUE_LENGTH
    ensures Due(s, CandidateQueue) == |s.candidates|
    ensures Due(s, TimerQueue) == (if s.timer then 1 else 0)
    ensures Due(s, ControlQueue) == |s.controls|
    ensures s.pc == Selected(CandidateQueue) ==> s.candidates != []
    ensures s.pc == Selected(TimerQueue) ==> s.timer
    ensures s.pc == Selected(ControlQueue) ==> s.controls != []
  {
    AlwaysCore(acts, s);
    SetNeverOverflows(s);
  }

  // ---------------------------------------------------------------- the flush is complete

  /** A publication of generation g that had c in its window. */
  ghost predicate StandsFor(r: Record, c: Candidate, g: nat) {
    r.winner.gen == g && c in r.window && r.publication.hdop <= c.pair.hdop
  }

  lemma {:induction false} PublishedStandsFor(pubs: seq<Record>, g: nat, c: Candidate) returns (k: nat)
    requires forall i :: 0 <= i < |pubs| ==> GoodRecord(pubs[i], i)
    requires c in Published(pubs, g)
    ensures k < |pubs| && StandsFor(pubs[k], c, g)
  {
    var n := |pubs| - 1;
    if c in Published(pubs[..n], g) {
      k := PublishedStandsFor(pubs[..n], g, c);
    } else {
      k := n;
      var j := ChampionIsEarliestBest(pubs[n].window);
    }
  }

  /** When gnss_input_override_end has its acknowledgement, the queue is empty, the filter holds
      nothing, and the candidates accepted in the session are, in order, those its publications stand
      for. */
  lemma EndIsComplete(acts: seq<Action>, s: State, id: nat)
    requires After(acts) == Some(s) && (Enabled(s, EndTakeAck(id)) || Enabled(s, EndFinish(id)))
    ensures s.active && s.candidates == [] && s.best == None && Hand(s) == []
    ensures Of(s.accepted, s.gen) == Published(s.pubs, s.gen)
  {
    AlwaysCore(acts, s);
    AlwaysConserved(acts, s);
    EndState(s, id);
  }

  lemma EndState(s: State, id: nat)
    requires InvFlush(s) && InvEpoch(s) && InvConserve(s)
    requires Enabled(s, EndTakeAck(id)) || Enabled(s, EndFinish(id))
    ensures s.active && Drained(s) && Of(s.accepted, s.gen) == Published(s.pubs, s.gen)
  {}

  /** So every candidate accepted in the session has a publication of the session with an HDOP no larger. */
  lemma EveryUploadIsAnswered(acts: seq<Action>, s: State, id: nat, c: Candidate) returns (k: nat)
    requires After(acts) == Some(s) && Enabled(s, EndFinish(id)) && c in Of(s.accepted, s.gen)
    ensures k < |s.pubs| && StandsFor(s.pubs[k], c, s.gen)
  {
    AlwaysRecords(acts, s);
    EndIsComplete(acts, s, id);
    k := PublishedStandsFor(s.pubs, s.gen, c);
  }

  /** Once an override has ended nothing of it is published any more: the account of a session that
      is over is balanced and stays the same in every continuation of the run. */
  lemma {:induction false} NothingAfterTheEnd(acts: seq<Action>, s: State, more: seq<Action>, t: State, g: nat)
    requires After(acts) == Some(s) && After(acts + more) == Some(t)
    requires g % 2 == 1 && g < s.gen
    ensures s.gen <= t.gen && Published(t.pubs, g) == Published(s.pubs, g) == Of(t.accepted, g) == Of(s.accepted, g)
    decreases |more|
  {
    SessionSettled(acts, s, g);
    if more == [] {
      assert acts + more == acts;
    } else {
      var u := BeforeLast(acts, more, t);
      NothingAfterTheEnd(acts, s, more[..|more| - 1], u, g);
      AlwaysCore(acts + more[..|more| - 1], u);
      LateStepSparesOver(u, more[|more| - 1], g);
      SessionSettled(acts + more, t, g);
    }
  }

  lemma SessionSettled(acts: seq<Action>, s: State, g: nat)
    requires After(acts) == Some(s) && g % 2 == 1 && g < s.gen
    ensures Of(s.accepted, g) == Published(s.pubs, g)
  {
    AlwaysConserved(acts, s);
    SettledOf(s, g);
  }

  lemma SettledOf(s: State, g: nat)
    requires InvConserve(s) && g % 2 == 1 && g < s.gen
    ensures Of(s.accepted, g) == Published(s.pubs, g)
  {
    assert Settled(s.accepted, s.pubs, g);
  }

  lemma LateStepSparesOver(s: State, a: Action, g: nat)
    requires s.segs != [] && InvEpoch(s) && InvMarkers(s) && Enabled(s, a) && g % 2 == 1 && g < s.gen
    ensures Published(Apply(s, a).pubs, g) == Published(s.pubs, g) && s.gen <= Apply(s, a).gen
  {
    match a
    case FilterStep => LateFilterSparesOver(s, g);
    case OverrideFeed(data) => FeedKeepsBooks(s, data);
    case UartFeed(data) => FeedKeepsBooks(s, data);
    case _ =>
  }

  lemma FeedKeepsBooks(s: State, data: seq<byte>)
    requires s.segs != []
    ensures Feed(s, data).pubs == s.pubs && Feed(s, data).gen == s.gen
  {
    var k := |s.segs| - 1;
    var bytes := s.segs[k].bytes + data;
    PushFromKeepsBooks(s.(segs := s.segs[k := Segment(s.segs[k].gen, bytes, Emitted(bytes))]), Emitted(bytes), |s.segs[k].out|);
  }

  lemma LateFilterSparesOver(s: State, g: nat)
    requires InvEpoch(s) && InvMarkers(s) && Enabled(s, FilterStep) && g % 2 == 1 && g < s.gen
    ensures Published(Filter(s).pubs, g) == Published(s.pubs, g) && Filter(s).gen == s.gen
  {
    match s.pc
    case PublishApply(_, _, _) => LatePublishSparesOver(s, g);
    case Selected(CandidateQueue) => SetNeverOverflows(s); ReceiveStep(s);
    case ConsiderApply(_, _, _) => ConsiderStep(s);
    case AtSelect => QueueSteps(s);
    case Selected(_) => QueueSteps(s);
    case _ => ReadSteps(s);
  }

  lemma LatePublishSparesOver(s: State, g: nat)
    requires InvEpoch(s) && s.pc.PublishApply? && g % 2 == 1 && g < s.gen
    ensures Published(Filter(s).pubs, g) == Published(s.pubs, g) && Filter(s).gen == s.gen
  {}

  // ---------------------------------------------------------------- publications

  /** The i-th publication carries sequence i + 1 modulo 2^32 and shows the earliest candidate of
      lowest HDOP among those considered since the window opened, all of one generation; its bytes are
      that candidate's GGA and RMC, two disjoint valid sentences, GGA first, of one stretch of bytes
      fed in that generation. */
  lemma PublicationExact(acts: seq<Action>, s: State, i: nat) returns (k: nat, seg: nat, g: Span, r: Span)
    requires After(acts) == Some(s) && i < |s.pubs|
    ensures var p := s.pubs[i];
            && p.publication.sequence == (i + 1) % WORD
            && k < |p.window| && p.winner == p.window[k] && p.publication.hdop == p.winner.pair.hdop
            && (forall j :: 0 <= j < |p.window| ==>
                  p.window[k].pair.hdop <= p.window[j].pair.hdop && p.window[j].gen == p.winner.gen)
            && (forall j :: 0 <= j < k ==> p.window[k].pair.hdop < p.window[j].pair.hdop)
    ensures seg < |s.segs| && s.segs[seg].gen == s.pubs[i].winner.gen
    ensures var b, p := s.segs[seg].bytes, s.pubs[i].publication;
            && ValidSpan(b, g) && ValidSpan(b, r) && g.hi <= r.lo
            && p.data == b[g.lo..g.hi] + b[r.lo..r.hi] && p.len == |p.data| <= 256
            && Hdop(b[g.lo..g.hi]) == Some(p.hdop) && HasType(b[r.lo..r.hi], RMC)
  {
    AlwaysRecords(acts, s);
    var p := s.pubs[i];
    assert GoodRecord(p, i);
    SequenceWraps(i + 1);
    k := ChampionIsEarliestBest(p.window);
    seg, g, r := PublishedFrom(s, i);
  }

  lemma PublishedFrom(s: State, i: nat) returns (seg: nat, g: Span, r: Span)
    requires InvSource(s) && i < |s.pubs| && GoodRecord(s.pubs[i], i)
    ensures seg < |s.segs| && s.segs[seg].gen == s.pubs[i].winner.gen
    ensures var b, p := s.segs[seg].bytes, s.pubs[i].publication;
            && ValidSpan(b, g) && ValidSpan(b, r) && g.hi <= r.lo
            && p.data == b[g.lo..g.hi] + b[r.lo..r.hi] && p.len == |p.data| <= 256
            && Hdop(b[g.lo..g.hi]) == Some(p.hdop) && HasType(b[r.lo..r.hi], RMC)
  {
    var c := s.pubs[i].winner;
    assert AllIn(s.pubs[i].window, s.accepted);
    assert c in s.accepted;
    var j :| 0 <= j < |s.accepted| && s.accepted[j] == c;
    assert Sourced(s.segs, c);
    seg := c.seg;
    g, r := EmittedVerbatim(s.segs[seg].bytes, c.n);
  }

  /** The bytes of candidate a are over before those of b begin. */
  ghost predicate Apart(segs: seq<Segment>, a: Candidate, b: Candidate) {
    && Sourced(segs, a) && Sourced(segs, b)
    && (a.seg < b.seg || (a.seg == b.seg && InOneStream(segs[a.seg].bytes, a.n, b.n)))
  }

  ghost predicate InOneStream(t: seq<byte>, j: nat, k: nat) {
    j < |Emitted(t)| && k < |Emitted(t)| && Place(t, j).1.hi <= Place(t, k).0.lo
  }

  /** No two accepted candidates share a sentence: they come from different segments, or the RMC of one
      ends at or before the byte at which the GGA of the other begins. */
  lemma AcceptedAreApart(acts: seq<Action>, s: State, i: nat, j: nat)
    requires After(acts) == Some(s) && i < j < |s.accepted|
    ensures Apart(s.segs, s.accepted[i], s.accepted[j])
  {
    AlwaysRecords(acts, s);
    OrderedAreApart(s, s.accepted[i], s.accepted[j]);
  }

  lemma OrderedAreApart(s: State, a: Candidate, b: Candidate)
    requires Parsed(s.segs) && Sourced(s.segs, a) && Sourced(s.segs, b) && Earlier(a, b.seg, b.n)
    ensures Apart(s.segs, a, b)
  {
    if a.seg == b.seg {
      EmittedApart(s.segs[a.seg].bytes, a.n, b.n);
    }
  }

  /** After each switch at most one publication of the source before it can still appear, and only
      after a switch to an upload. */
  lemma AtMostOneLatePublication(acts: seq<Action>, s: State, g: nat)
    requires After(acts) == Some(s) && g <= s.gen
    ensures Stale(s.pubs, g) <= if g % 2 == 1 then 1 else 0
  {
    AlwaysRecords(acts, s);
    StaleBound(s, g);
  }

  /** Whenever the filter has read the UART's epoch and holds a best candidate, an override that begins
      before the filter goes on is followed by that one publication. */
  lemma LatePublicationHappens(s: State)
    requires Good(s) && !s.active && s.pc.PublishApply? && s.best.Some? && s.pc.gen == s.gen
    ensures var t := Apply(Apply(s, Begin), FilterStep); t.pubs != s.pubs && Stale(t.pubs, t.gen) == 1
  {
    LateRecord(s);
    StaleNone(s.pubs, s.gen + 1);
    var t := Apply(Apply(s, Begin), FilterStep);
    assert t.pubs[..|s.pubs|] == s.pubs;
  }

  lemma LateRecord(s: State)
    requires InvEpoch(s) && s.segs != [] && !s.active && s.pc.PublishApply? && s.best.Some? && s.pc.gen == s.gen
    ensures Enabled(Apply(s, Begin), FilterStep)
    ensures var t := Apply(Apply(s, Begin), FilterStep);
            && t.gen == s.gen + 1
            && t.pubs == s.pubs + [Record(Render(s.nextSequence, s.best.value), s.best.value, s.window, t.gen)]
            && s.best.value.gen == s.gen
  {}

  lemma StaleBound(s: State, g: nat)
    requires InvRecords(s) && g <= s.gen
    ensures Stale(s.pubs, g) <= if g % 2 == 1 then 1 else 0
  {}

  /** Bytes enter the parser only from the source that owns it, and only at the end of the current
      segment; a reset opens a new one. */
  ghost predicate Owned(s: State, a: Action, t: State) {
    var k := |s.segs| - 1;
    && s.segs != [] && |s.segs| <= |t.segs| && t.segs[..k] == s.segs[..k] && t.segs[k].gen == s.segs[k].gen == s.gen
    && (t.segs[k] != s.segs[k] ==>
          && (if s.gen % 2 == 1 then a.OverrideFeed? else a.UartFeed?)
          && t.segs[k].bytes == s.segs[k].bytes + a.data)
    && (|t.segs| > |s.segs| ==> |t.segs| == |s.segs| + 1 && t.segs[k + 1] == Segment(t.gen, [], []))
  }

  lemma OnlyTheOwnerFeeds(acts: seq<Action>, s: State, a: Action)
    requires After(acts) == Some(s) && s.segs != [] && Enabled(s, a)
    ensures Owned(s, a, Apply(s, a))
  {
    AlwaysCore(acts, s);
    AlwaysRecords(acts, s);
    StepIsOwned(s, a);
  }

  lemma StepIsOwned(s: State, a: Action)
    requires Core(s) && s.segs[|s.segs| - 1].gen == s.gen && Enabled(s, a)
    ensures Owned(s, a, Apply(s, a))
  {
    match a
    case OverrideFeed(data) => if s.active && !s.closing { FeedExtends(s, data); }
    case UartFeed(data) => if !s.active { FeedExtends(s, data); }
    case FilterStep => FilterKeepsHistory(s);
    case Begin =>
    case InitReset =>
    case EndFinish(_) =>
    case _ => EdgeSteps(s, a);
  }

  lemma FeedExtends(s: State, data: seq<byte>)
    requires s.segs != []
    ensures var k := |s.segs| - 1;
            var bytes := s.segs[k].bytes + data;
            Feed(s, data).segs == s.segs[k := Segment(s.segs[k].gen, bytes, Emitted(bytes))]
  {
    var k := |s.segs| - 1;
    var bytes := s.segs[k].bytes + data;
    PushFromKeepsBooks(s.(segs := s.segs[k := Segment(s.segs[k].gen, bytes, Emitted(bytes))]), Emitted(bytes), |s.segs[k].out|);
  }

  /** The candidates numbered n to n + k - 1 of a segment that gives out. */
  function Numbered(epoch: nat, gen: nat, seg: nat, out: seq<Pair>, n: nat, k: nat): (cs: seq<Candidate>)
    requires n + k <= |out|
    ensures |cs| == k
    decreases k
  {
    if k == 0 then [] else [Candidate(out[n], epoch, gen, seg, n)] + Numbered(epoch, gen, seg, out, n + 1, k - 1)
  }

  /** How many of so many new candidates a queue of a given length has room for. */
  function Fitting(queued: nat, some: nat): nat {
    if queued >= CANDIDATE_QUEUE_LENGTH then 0
    else if some < CANDIDATE_QUEUE_LENGTH - queued then some
    else CANDIDATE_QUEUE_LENGTH - queued
  }

  /** The new candidates from the n-th on, as far as a queue of length q has room. */
  function Taken(epoch: nat, gen: nat, seg: nat, out: seq<Pair>, n: nat, q: nat): seq<Candidate>
    requires n <= |out|
  {
    Numbered(epoch, gen, seg, out, n, Fitting(q, |out| - n))
  }

  /** The length of the queue after one more send. */
  function Sent(q: nat): nat {
    if q < CANDIDATE_QUEUE_LENGTH then q + 1 else q
  }

  lemma TakenStep(epoch: nat, gen: nat, seg: nat, out: seq<Pair>, n: nat, q: nat)
    requires n < |out|
    ensures var rest := Taken(epoch, gen, seg, out, n + 1, Sent(q));
            && (q >= CANDIDATE_QUEUE_LENGTH ==> rest == [])
            && Taken(epoch, gen, seg, out, n, q) ==
               if q < CANDIDATE_QUEUE_LENGTH then [Candidate(out[n], epoch, gen, seg, n)] + rest else []
  {}

  /** Exactly the candidates more have been accepted and queued between s and t. */
  ghost predicate Accepts(s: State, t: State, more: seq<Candidate>) {
    t.accepted == s.accepted + more && t.candidates == s.candidates + more
  }

  /** One feed accepts exactly the first candidates it completes, as many as the queue has room for. */
  lemma FeedAccepts(s: State, data: seq<byte>, all: seq<Pair>)
    requires s.segs != [] && Current(s.segs) && all == Emitted(s.segs[|s.segs| - 1].bytes + data)
    ensures Grows(s, all) && Accepts(s, Feed(s, data), TakenNow(s, all))
    ensures var new', room := |all| - |s.segs[|s.segs| - 1].out|, 8 - |s.candidates|;
            |TakenNow(s, all)| == if room < 0 then 0 else if new' < room then new' else room
  {
    var k := |s.segs| - 1;
    EmittedGrows(s.segs[k].bytes, data);
    FeedAt(s, data, all);
    PushFromAccepts(Refilled(s, data, all), all, |s.segs[k].out|, s.epoch, s.gen, k);
  }

  predicate Grows(s: State, all: seq<Pair>) {
    s.segs != [] && s.segs[|s.segs| - 1].out <= all
  }

  function TakenNow(s: State, all: seq<Pair>): seq<Candidate>
    requires Grows(s, all)
  {
    Taken(s.epoch, s.gen, |s.segs| - 1, all, |s.segs[|s.segs| - 1].out|, |s.candidates|)
  }

  ghost function Refilled(s: State, data: seq<byte>, all: seq<Pair>): State
    requires s.segs != []
  {
    var k := |s.segs| - 1;
    s.(segs := s.segs[k := Segment(s.segs[k].gen, s.segs[k].bytes + data, all)])
  }

  lemma FeedAt(s: State, data: seq<byte>, all: seq<Pair>)
    requires s.segs != [] && all == Emitted(s.segs[|s.segs| - 1].bytes + data)
    ensures Feed(s, data) == PushFrom(Refilled(s, data, all), all, |s.segs[|s.segs| - 1].out|)
    ensures |Refilled(s, data, all).segs| == |s.segs|
  {}

  lemma PushAccepts(s: State, c: Candidate, t: State, rest: seq<Candidate>)
    requires Accepts(Push(s, c), t, rest) && (|s.candidates| >= CANDIDATE_QUEUE_LENGTH ==> rest == [])
    ensures Accepts(s, t, if |s.candidates| < CANDIDATE_QUEUE_LENGTH then [c] + rest else [])
  {
    Regroup(s.accepted, [c], rest);
    Regroup(s.candidates, [c], rest);
  }

  lemma Pushed(s: State, c: Candidate)
    ensures var u := Push(s, c);
            u.epoch == s.epoch && u.gen == s.gen && u.segs == s.segs && |u.candidates| == Sent(|s.candidates|)
  {}

  lemma {:induction false} PushFromAccepts(s: State, out: seq<Pair>, n: nat, epoch: nat, gen: nat, seg: nat)
    requires s.segs != [] && n <= |out| && s.epoch == epoch && s.gen == gen && |s.segs| - 1 == seg
    ensures Accepts(s, PushFrom(s, out, n), Taken(epoch, gen, seg, out, n, |s.candidates|))
    decreases |out| - n
  {
    if n == |out| {
    } else {
      var c := Candidate(out[n], epoch, gen, seg, n);
      var u := Push(s, c);
      Pushed(s, c);
      PushFromStep(s, out, n);
      PushFromAccepts(u, out, n + 1, epoch, gen, seg);
      TakenStep(epoch, gen, seg, out, n, |s.candidates|);
      PushAccepts(s, c, PushFrom(s, out, n), Taken(epoch, gen, seg, out, n + 1, |u.candidates|));
    }
  }

  /** Feeding in pieces is feeding at once, whatever happens to the queue: a section that feeds may be
      cut anywhere into sections. */
  lemma FeedSplits(s: State, a: seq<byte>, b: seq<byte>)
    requires Current(s.segs)
    ensures Feed(s, a).segs != [] && Feed(Feed(s, a), b) == Feed(s, a + b)
  {
    var k := |s.segs| - 1;
    var old', m, whole := s.segs[k].bytes, s.segs[k].bytes + a, s.segs[k].bytes + (a + b);
    assert m + b == whole;
    EmittedGrows(old', a);
    EmittedGrows(m, b);
    var g, p, q := s.segs[k].gen, Emitted(m), Emitted(whole);
    FeedSplitsAt(s, Segment(g, m, p), Segment(g, whole, q));
    FeedExtends(s, a);
  }

  lemma FeedSplitsAt(s: State, x: Segment, y: Segment)
    requires s.segs != [] && s.segs[|s.segs| - 1].out <= x.out <= y.out
    ensures var k := |s.segs| - 1;
            var t := PushFrom(s.(segs := s.segs[k := x]), x.out, |s.segs[k].out|);
            t.segs == s.segs[k := x] &&
            PushFrom(t.(segs := t.segs[k := y]), y.out, |x.out|) == PushFrom(s.(segs := s.segs[k := y]), y.out, |s.segs[k].out|)
  {
    var k := |s.segs| - 1;
    var s1 := s.(segs := s.segs[k := x]);
    PushFromKeepsBooks(s1, x.out, |s.segs[k].out|);
    PushFromSplits(s1, s.segs[k := y], x.out, y.out, |s.segs[k].out|);
    assert s.segs[k := x][k := y] == s.segs[k := y];
  }

  lemma {:induction false} PushFromSplits(s: State, segs: seq<Segment>, some: seq<Pair>, all: seq<Pair>, n: nat)
    requires s.segs != [] && |segs| == |s.segs| && some <= all && n <= |some|
    ensures PushFrom(PushFrom(s, some, n).(segs := segs), all, |some|) == PushFrom(s.(segs := segs), all, n)
    decreases |some| - n
  {
    if n >= |some| {
    } else {
      var c := Candidate(some[n], s.epoch, s.gen, |s.segs| - 1, n);
      PushFromSplits(Push(s, c), segs, some, all, n + 1);
      assert Push(s, c).(segs := segs) == Push(s.(segs := segs), c);
    }
  }

  // ---------------------------------------------------------------- the flush makes progress

  /** Filter steps left until the filter task is back at its select. */
  function Busy(pc: FilterPc): nat {
    match pc
    case AtSelect => 0
    case Selected(_) => 3
    case ConsiderRead(_) => 2
    case ConsiderApply(_, _, _) => 1
    case FlushRead(_) => 4
    case PublishRead(flush) => if flush then 3 else 2
    case PublishApply(flush, _, _) => if flush then 2 else 1
    case AckGive => 1
  }

  /** Filter steps left until the acknowledgement is given, once the control has been queued. */
  function StepsToAck(s: State): nat {
    if FlushPc(s.pc) then Busy(s.pc)
    else if s.pc == Selected(ControlQueue) then 5
    else Busy(s.pc) + 4 * Pos(s.markers) + 6
  }

  /** Selects left until then. */
  function SelectsToAck(s: State): nat {
    if FlushPc(s.pc) || s.pc == Selected(ControlQueue) then 0 else Pos(s.markers) + 1
  }

  /** The selection of the next marker brings the control one place nearer. */
  lemma SelectProgress(s: State)
    requires InFlight(s) && s.pc.AtSelect?
    ensures s.markers != [] && var t := Filter(s); StepsToAck(t) == StepsToAck(s) - 1 && SelectsToAck(t) == SelectsToAck(s) - 1
    ensures Filter(s).callers == s.callers && !Filter(s).ack
  {}

  /** What a step on another marker does: the set and the callers stay, and the filter is one step nearer its select. */
  ghost predicate Served(s: State, t: State) {
    && t.markers == s.markers && t.callers == s.callers && t.ack == s.ack && Busy(s.pc) > 0
    && if s.pc == Selected(ControlQueue) then t.pc.FlushRead?
       else !FlushPc(t.pc) && t.pc != Selected(ControlQueue) && Busy(t.pc) == Busy(s.pc) - 1
  }

  lemma ReceiveServes(s: State)
    requires s.pc.Selected?
    requires s.pc == Selected(CandidateQueue) ==> s.candidates != []
    requires s.pc == Selected(ControlQueue) ==> s.controls != []
    ensures Served(s, Filter(s))
  {}

  lemma ReadServes(s: State)
    requires s.pc.ConsiderRead? || s.pc == PublishRead(false)
    ensures Served(s, Filter(s))
  {}

  lemma ConsiderServes(s: State)
    requires s.pc.ConsiderApply?
    ensures Served(s, Filter(s))
  {}

  lemma PublishServes(s: State)
    requires s.pc.PublishApply? && !s.pc.flush
    ensures Served(s, Filter(s))
  {}

  /** Whatever else was selected is dealt with in three more steps. */
  lemma ServiceProgress(s: State)
    requires InFlight(s) && InvMarkers(s) && !s.pc.AtSelect? && !FlushPc(s.pc)
    ensures Served(s, Filter(s))
    ensures StepsToAck(Filter(s)) == StepsToAck(s) - 1 && SelectsToAck(Filter(s)) == SelectsToAck(s)
  {
    SetNeverOverflows(s);
    match s.pc
    case Selected(_) => ReceiveServes(s);
    case ConsiderApply(_, _, _) => ConsiderServes(s);
    case PublishApply(_, _, _) => PublishServes(s);
    case _ => ReadServes(s);
  }

  /** The control itself takes five: receive, compare, read, publish, acknowledge. */
  lemma ControlProgress(s: State)
    requires InFlight(s) && FlushPc(s.pc)
    ensures var t := Filter(s);
            && SelectsToAck(s) == 0 && t.callers == s.callers
            && if StepsToAck(s) == 1 then t.ack
               else !t.ack && StepsToAck(t) == StepsToAck(s) - 1 && SelectsToAck(t) == 0
  {}

  /** An override end waits for its acknowledgement, which has not been given. */
  ghost predicate AwaitsAck(s: State, id: nat) {
    id in s.callers && s.callers[id] == AwaitAck && !s.ack
  }

  lemma WaitingIsInFlight(s: State, id: nat)
    requires InvFlush(s) && InvMarkers(s) && AwaitsAck(s, id)
    ensures InFlight(s) && Enabled(s, FilterStep)
    ensures 0 < StepsToAck(s) <= 45 && SelectsToAck(s) <= 10
  {
    assert Phase(s, s.callers[id]);
    SetNeverOverflows(s);
  }

  /** The filter can always take its next step, and it brings the acknowledgement one step nearer. */
  lemma FilterProgress(s: State, id: nat)
    requires InvFlush(s) && InvMarkers(s) && AwaitsAck(s, id)
    ensures Enabled(s, FilterStep) && StepsToAck(s) > 0
    ensures var t := Filter(s);
            if StepsToAck(s) == 1 then t.ack
            else
              && AwaitsAck(t, id) && StepsToAck(t) == StepsToAck(s) - 1
              && SelectsToAck(t) == SelectsToAck(s) - if s.pc.AtSelect? then 1 else 0
  {
    WaitingIsInFlight(s, id);
    if s.pc.AtSelect? {
      SelectProgress(s);
    } else if FlushPc(s.pc) {
      ControlProgress(s);
    } else {
      ServiceProgress(s);
    }
  }

  /** No other action delays it. */
  lemma OthersDoNotDelay(s: State, a: Action, id: nat)
    requires s.segs != [] && InvEpoch(s) && InvFlush(s) && InvMarkers(s) && AwaitsAck(s, id) && Enabled(s, a) && !a.FilterStep?
    ensures var t := Apply(s, a); AwaitsAck(t, id) && StepsToAck(t) == StepsToAck(s) && SelectsToAck(t) == SelectsToAck(s)
  {}

  /** The end still waits at t, n filter steps after s. */
  ghost predicate Nearer(s: State, t: State, id: nat, n: nat) {
    AwaitsAck(t, id) && StepsToAck(t) > 0 && StepsToAck(t) + n == StepsToAck(s)
  }

  lemma NearerAdds(s: State, t: State, u: State, id: nat, n: nat, m: nat)
    requires Nearer(s, t, id, n) && Nearer(t, u, id, m)
    ensures Nearer(s, u, id, n + m)
  {}

  function FilterSteps(acts: seq<Action>): nat {
    if acts == [] then 0 else FilterSteps(acts[..|acts| - 1]) + if acts[|acts| - 1].FilterStep? then 1 else 0
  }

  /** The acknowledgement is there after acts and some first part of more. */
  ghost predicate Acked(acts: seq<Action>, more: seq<Action>) {
    (After(acts + more).Some? && After(acts + more).value.ack) || (more != [] && Acked(acts, more[..|more| - 1]))
  }

  /** From the moment the control is queued, a run in which the filter takes StepsToAck further steps,
      45 at most and 10 of them selects, contains the acknowledgement, whatever the others do. */
  lemma AckArrives(acts: seq<Action>, s: State, more: seq<Action>, t: State, id: nat)
    requires After(acts) == Some(s) && AwaitsAck(s, id) && After(acts + more) == Some(t)
    requires FilterSteps(more) >= StepsToAck(s)
    ensures StepsToAck(s) <= 45 && SelectsToAck(s) <= 10 && Acked(acts, more)
  {
    AlwaysCore(acts, s);
    WaitingIsInFlight(s, id);
    AckOrNearer(acts, s, more, t, id);
  }

  /** Along the run either the acknowledgement comes or each filter step brings it nearer. */
  lemma {:induction false} AckOrNearer(acts: seq<Action>, s: State, more: seq<Action>, t: State, id: nat)
    requires After(acts) == Some(s) && AwaitsAck(s, id) && After(acts + more) == Some(t)
    ensures Acked(acts, more) || Nearer(s, t, id, FilterSteps(more))
    decreases |more|
  {
    if more == [] {
      assert acts + more == acts;
      WaitingIsNear(acts, s, id);
    } else {
      var first := more[..|more| - 1];
      var v := BeforeLast(acts, more, t);
      AckOrNearer(acts, s, first, v, id);
      if !Acked(acts, first) {
        StaysNear(acts + first, s, v, more[|more| - 1], id, FilterSteps(first));
      }
    }
  }

  lemma WaitingIsNear(acts: seq<Action>, s: State, id: nat)
    requires After(acts) == Some(s) && AwaitsAck(s, id)
    ensures Nearer(s, s, id, 0)
  {
    AlwaysCore(acts, s);
    WaitingIsInFlight(s, id);
  }

  lemma StaysNear(acts: seq<Action>, s: State, v: State, a: Action, id: nat, n: nat)
    requires After(acts) == Some(v) && Nearer(s, v, id, n) && v.segs != [] && Enabled(v, a)
    ensures Apply(v, a).ack || Nearer(s, Apply(v, a), id, n + if a.FilterStep? then 1 else 0)
  {
    AlwaysCore(acts, v);
    OneNearer(v, a, id);
    if !Apply(v, a).ack {
      NearerAdds(s, v, Apply(v, a), id, n, if a.FilterStep? then 1 else 0);
    }
  }

  lemma OneNearer(s: State, a: Action, id: nat)
    requires Core(s) && AwaitsAck(s, id) && Enabled(s, a)
    ensures Apply(s, a).ack || Nearer(s, Apply(s, a), id, if a.FilterStep? then 1 else 0)
  {
    if a.FilterStep? {
      FilterProgress(s, id);
    } else {
      OthersDoNotDelay(s, a, id);
      WaitingIsInFlight(s, id);
    }
  }

  // ---------------------------------------------------------------- the acknowledgement is never lost

  /** The discard before a flush never removes an acknowledgement, the give never finds one already
      there, and the control the filter receives is always of the current epoch. */
  lemma AckIsNeverLost(acts: seq<Action>, s: State, id: nat)
    requires After(acts) == Some(s)
    ensures Enabled(s, EndDiscard(id)) ==> !s.ack
    ensures s.pc.AckGive? ==> !s.ack
    ensures s.pc.FlushRead? ==> s.pc.control == s.epoch
  {
    AlwaysCore(acts, s);
    AckState(s, id);
  }

  lemma AckState(s: State, id: nat)
    requires InvFlush(s)
    ensures Enabled(s, EndDiscard(id)) ==> !s.ack
    ensures s.pc.AckGive? ==> !s.ack
    ensures s.pc.FlushRead? ==> s.pc.control == s.epoch
  {}
}
