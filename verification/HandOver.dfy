/** What the dispatcher takes from the one-slot queue: always the newest publication, each at most once,
    and in the end the last one made. */
module HandOver {
  import opened Nmea
  import opened Basics
  import opened NmeaFields
  import opened Framing
  import opened Protocol
  import opened GnssRuns

  /** The slot holds the newest publication or nothing. */
  predicate SlotIsNewest(slot: Option<Publication>, pubs: seq<Record>) {
    slot.Some? ==> pubs != [] && slot.value == pubs[|pubs| - 1].publication
  }

  /** From s to t a publication has been made and put into the slot, over whatever was there, or the slot has
      been emptied by the dispatcher, or it is as it was. */
  predicate SlotMoves(s: State, a: Action, t: State) {
    if t.pubs != s.pubs then
      |t.pubs| == |s.pubs| + 1 && t.pubs[..|s.pubs|] == s.pubs && t.slot == Some(t.pubs[|s.pubs|].publication)
    else if a.Dispatch? then s.slot.Some? && t.slot == None
    else t.slot == s.slot
  }

  lemma PublishMovesSlot(s: State)
    requires s.pc.PublishApply?
    ensures SlotMoves(s, FilterStep, Filter(s))
  {
    var t := Filter(s);
    if s.best.Some? && s.best.value.epoch == s.pc.epoch {
      assert t.pubs[..|s.pubs|] == s.pubs;
    }
  }

  lemma QuietKeepsSlot(s: State)
    requires Enabled(s, FilterStep) && !s.pc.PublishApply?
    ensures Filter(s).slot == s.slot && Filter(s).pubs == s.pubs
  {
    match s.pc
    case Selected(m) => if m.CandidateQueue? {} else if m.TimerQueue? {} else {}
    case _ =>
  }

  lemma FilterMovesSlot(s: State)
    requires Enabled(s, FilterStep)
    ensures SlotMoves(s, FilterStep, Filter(s))
  {
    if s.pc.PublishApply? {
      PublishMovesSlot(s);
    } else {
      QuietKeepsSlot(s);
    }
  }

  lemma {:induction false} PushFromKeepsSlot(s: State, out: seq<Pair>, n: nat)
    requires s.segs != []
    ensures PushFrom(s, out, n).slot == s.slot && PushFrom(s, out, n).pubs == s.pubs
    decreases |out| - n
  {
    if n >= |out| {
    } else {
      PushFromKeepsSlot(Push(s, Candidate(out[n], s.epoch, s.gen, |s.segs| - 1, n)), out, n + 1);
    }
  }

  lemma FeedKeepsSlot(s: State, data: seq<byte>)
    requires s.segs != []
    ensures Feed(s, data).slot == s.slot && Feed(s, data).pubs == s.pubs
  {
    var k := |s.segs| - 1;
    var bytes := s.segs[k].bytes + data;
    PushFromKeepsSlot(s.(segs := s.segs[k := Segment(s.segs[k].gen, bytes, Emitted(bytes))]), Emitted(bytes), |s.segs[k].out|);
  }

  lemma StepMovesSlot(s: State, a: Action)
    requires s.segs != [] && Enabled(s, a)
    ensures SlotMoves(s, a, Apply(s, a))
  {
    match a
    case FilterStep => FilterMovesSlot(s);
    case OverrideFeed(data) => FeedKeepsSlot(s, data);
    case UartFeed(data) => FeedKeepsSlot(s, data);
    case _ =>
  }

  // ---------------------------------------------------------------- runs

  /** The numbers, counted from zero, of the publications the dispatcher has taken. */
  ghost function Taken(acts: seq<Action>): seq<int> {
    if acts == [] then []
    else
      var first, p := acts[..|acts| - 1], After(acts[..|acts| - 1]);
      Taken(first) + if acts[|acts| - 1].Dispatch? && p.Some? then [|p.value.pubs| - 1] else []
  }

  /** Each is taken at most once, in order, and the newest is in the slot or is the last that was taken. */
  predicate Orderly(taken: seq<int>, slot: Option<Publication>, pubs: seq<Record>) {
    && SlotIsNewest(slot, pubs)
    && (forall j, k :: 0 <= j < k < |taken| ==> taken[j] < taken[k])
    && (forall k :: 0 <= k < |taken| ==> 0 <= taken[k] < |pubs| - if slot.Some? then 1 else 0)
    && (slot.None? && pubs != [] ==> taken != [] && taken[|taken| - 1] == |pubs| - 1)
  }

  lemma StepIsOrderly(taken: seq<int>, s: State, a: Action, t: State)
    requires Orderly(taken, s.slot, s.pubs) && SlotMoves(s, a, t)
    requires a.Dispatch? ==> t.pubs == s.pubs
    ensures Orderly(taken + if a.Dispatch? then [|s.pubs| - 1] else [], t.slot, t.pubs)
  {}

  lemma {:induction false} AlwaysOrderly(acts: seq<Action>, s: State)
    requires After(acts) == Some(s)
    ensures Orderly(Taken(acts), s.slot, s.pubs)
  {
    if acts == [] {
    } else {
      var before, a := LastStep(acts, s);
      AlwaysOrderly(acts[..|acts| - 1], before);
      StepMovesSlot(before, a);
      StepIsOrderly(Taken(acts[..|acts| - 1]), before, a, s);
    }
  }

  /** In every run the dispatcher takes each publication at most once and in the order they were made, and
      the newest one is in the slot unless it is the last it took. */
  lemma TakenInOrder(acts: seq<Action>, s: State)
    requires After(acts) == Some(s)
    ensures var n := Taken(acts);
            && (forall j, k :: 0 <= j < k < |n| ==> n[j] < n[k]) && (forall k :: 0 <= k < |n| ==> 0 <= n[k] < |s.pubs|)
            && (s.pubs != [] ==>
                  || s.slot == Some(s.pubs[|s.pubs| - 1].publication)
                  || (s.slot == None && n != [] && n[|n| - 1] == |s.pubs| - 1))
  {
    AlwaysOrderly(acts, s);
  }

  /** The publication is a GGA of the bytes b and after it the RMC, two valid sentences, with the GGA's HDOP. */
  ghost predicate IsPairOf(p: Publication, b: seq<byte>, g: Span, r: Span) {
    && ValidSpan(b, g) && ValidSpan(b, r) && g.hi <= r.lo
    && p.data == b[g.lo..g.hi] + b[r.lo..r.hi] && p.len == |p.data| <= 256
    && Hdop(b[g.lo..g.hi]) == Some(p.hdop) && HasType(b[r.lo..r.hi], RMC)
  }

  lemma PublishedPair(acts: seq<Action>, s: State, i: nat) returns (seg: nat, g: Span, r: Span)
    requires After(acts) == Some(s) && i < |s.pubs|
    ensures seg < |s.segs| && s.segs[seg].gen == s.pubs[i].winner.gen
    ensures s.pubs[i].publication.sequence == (i + 1) % WORD && IsPairOf(s.pubs[i].publication, s.segs[seg].bytes, g, r)
  {
    var k;
    k, seg, g, r := PublicationExact(acts, s, i);
  }

  lemma SlotHoldsNewest(acts: seq<Action>, s: State) returns (i: nat)
    requires After(acts) == Some(s) && s.slot.Some?
    ensures i + 1 == |s.pubs| && s.slot == Some(s.pubs[i].publication)
  {
    AlwaysOrderly(acts, s);
    i := |s.pubs| - 1;
  }

  /** What it takes is the newest publication and carries its number; it is two sentences of one stretch of
      one source's bytes, the GGA first. */
  lemma TakenExact(acts: seq<Action>, s: State) returns (i: nat, seg: nat, g: Span, r: Span)
    requires After(acts) == Some(s) && Enabled(s, Dispatch)
    ensures i + 1 == |s.pubs| && s.slot == Some(s.pubs[i].publication) && s.slot.value.sequence == (i + 1) % WORD
    ensures seg < |s.segs| && s.segs[seg].gen == s.pubs[i].winner.gen && IsPairOf(s.slot.value, s.segs[seg].bytes, g, r)
  {
    i := SlotHoldsNewest(acts, s);
    seg, g, r := PublishedPair(acts, s, i);
  }
}
