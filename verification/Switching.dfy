/** Generations: the epoch names the source switch a candidate belongs to, although it is a wrapping
    32-bit counter. */
module Switching {
  import opened Nmea
  import opened Basics
  import opened Framing
  import opened Protocol

  /** The epoch after g switches. */
  function EpochOf(g: nat): (e: nat)
    ensures 0 < e < WORD
  {
    if g == 0 then 1 else Advance(EpochOf(g - 1))
  }

  /** The epoch counts the switches, from 1 to 2^32 - 1 and round again. */
  lemma {:induction false} EpochCounts(g: nat)
    ensures EpochOf(g) == 1 + g % 0xFFFF_FFFF
  {
    if g == 0 {
    } else {
      EpochCounts(g - 1);
      assert g % 0xFFFF_FFFF == if (g - 1) % 0xFFFF_FFFF == 0xFFFF_FFFE then 0 else (g - 1) % 0xFFFF_FFFF + 1;
    }
  }

  /** A generation the pipeline can still hold work of: the current one, and while an override is
      active also the one before it. */
  predicate Live(s: State, g: nat) {
    g == s.gen || (s.active && g + 1 == s.gen)
  }

  /** Such work is told apart by its epoch alone. */
  lemma EpochDecides(s: State, g: nat, h: nat)
    requires Live(s, g) && Live(s, h)
    ensures EpochOf(g) == EpochOf(h) <==> g == h
  {}

  predicate Held(s: State, c: Candidate) {
    c.epoch == EpochOf(c.gen) && Live(s, c.gen)
  }

  /** Every candidate in the queue, in the filter's hand or best so far is of a live generation, and
      the epoch the filter works with is one it read from a live generation. */
  predicate InvEpoch(s: State) {
    && s.epoch == EpochOf(s.gen)
    && (s.active <==> s.gen % 2 == 1)
    && (s.closing ==> s.active)
    && (forall i :: 0 <= i < |s.candidates| ==> Held(s, s.candidates[i]))
    && (s.best.Some? ==> Held(s, s.best.value))
    && match s.pc
       case ConsiderRead(c) => Held(s, c)
       case ConsiderApply(c, e, g) =>
         Held(s, c) && e == EpochOf(g) && Live(s, g) && c.gen <= g && (s.best.Some? ==> s.best.value.gen <= g)
       case PublishApply(_, e, g) =>
         e == EpochOf(g) && g <= s.gen && (s.best.Some? ==> Live(s, g) && s.best.value.gen <= g)
       case _ => true
  }

  // ---------------------------------------------------------------- queue set

  function Count(ms: seq<Member>, m: Member): nat {
    if ms == [] then 0 else (if ms[0] == m then 1 else 0) + Count(ms[1..], m)
  }

  lemma {:induction false} CountAppend(ms: seq<Member>, x: Member, m: Member)
    ensures Count(ms + [x], m) == Count(ms, m) + if x == m then 1 else 0
  {
    if ms == [] {
      assert ms + [x] == [x];
    } else {
      CountAppend(ms[1..], x, m);
      assert (ms + [x])[1..] == ms[1..] + [x];
    }
  }

  lemma {:induction false} CountAll(ms: seq<Member>)
    ensures |ms| == Count(ms, CandidateQueue) + Count(ms, TimerQueue) + Count(ms, ControlQueue)
  {
    if ms == [] {
    } else {
      CountAll(ms[1..]);
    }
  }

  lemma {:induction false} CountZero(ms: seq<Member>, m: Member)
    ensures Count(ms, m) == 0 <==> m !in ms
  {
    if ms == [] {
    } else {
      CountZero(ms[1..], m);
    }
  }

  /** Markers in the set plus the one just selected. */
  function Due(s: State, m: Member): nat {
    Count(s.markers, m) + if s.pc == Selected(m) then 1 else 0
  }

  /** For every member, what the set announces is what the queue holds. */
  predicate InvMarkers(s: State) {
    && Due(s, CandidateQueue) == |s.candidates| <= CANDIDATE_QUEUE_LENGTH
    && Due(s, TimerQueue) == (if s.timer then 1 else 0)
    && Due(s, ControlQueue) == |s.controls| <= 1
  }

  lemma SetNeverOverflows(s: State)
    requires InvMarkers(s)
    ensures |s.markers| <= SET_LENGTH
    ensures s.pc == Selected(CandidateQueue) ==> s.candidates != []
    ensures s.pc == Selected(TimerQueue) ==> s.timer
    ensures s.pc == Selected(ControlQueue) ==> s.controls != []
  {
    CountAll(s.markers);
  }

  // ---------------------------------------------------------------- the flush

  predicate FlushPc(pc: FilterPc) {
    pc.FlushRead? || pc == PublishRead(true) || (pc.PublishApply? && pc.flush) || pc.AckGive?
  }

  /** No control, no acknowledgement anywhere. */
  predicate NoFlush(s: State) {
    s.controls == [] && !s.ack && ControlQueue !in s.markers && s.pc != Selected(ControlQueue) && !FlushPc(s.pc)
  }

  /** Nothing of the override is left in the queue or the filter. */
  predicate Drained(s: State) {
    && s.candidates == [] && s.best.None? && CandidateQueue !in s.markers
    && s.pc != Selected(CandidateQueue) && !s.pc.ConsiderRead? && !s.pc.ConsiderApply?
  }

  /** Where the control marker stands in the set. */
  function Pos(ms: seq<Member>): (p: nat)
    ensures p <= |ms|
    ensures p < |ms| ==> ms[p] == ControlQueue
    ensures forall k :: 0 <= k < p ==> ms[k] != ControlQueue
    ensures ControlQueue in ms ==> p < |ms|
  {
    if ms == [] || ms[0] == ControlQueue then 0 else 1 + Pos(ms[1..])
  }

  /** The control is under way: queued with only timer markers behind it, just selected, or being
      served with nothing else left. */
  predicate InFlight(s: State) {
    && !s.ack
    && if FlushPc(s.pc) then
         && s.controls == [] && ControlQueue !in s.markers && CandidateQueue !in s.markers && s.candidates == []
         && (s.pc.FlushRead? ==> s.pc.control == s.epoch)
         && (s.pc.PublishApply? ==> s.pc.gen == s.gen)
         && (s.pc.AckGive? ==> s.best.None?)
       else if s.pc == Selected(ControlQueue) then
         s.controls == [s.epoch] && ControlQueue !in s.markers && CandidateQueue !in s.markers
       else
         && s.controls == [s.epoch] && ControlQueue in s.markers
         && forall k :: Pos(s.markers) < k < |s.markers| ==> s.markers[k] == TimerQueue
  }

  predicate Phase(s: State, pc: EndPc) {
    match pc
    case Discard(e) => e == s.epoch && NoFlush(s)
    case Send(e) => e == s.epoch && NoFlush(s)
    case AwaitAck => InFlight(s) || (s.ack && Drained(s) && NoFlush(s.(ack := false)))
    case Finish => Drained(s) && NoFlush(s)
  }

  /** At most one caller flushes, only while closing, and it is where the kernel objects say it is. */
  predicate InvFlush(s: State) {
    && (s.closing <==> s.callers.Keys != {})
    && (forall i, j :: i in s.callers && j in s.callers ==> i == j)
    && (forall i :: i in s.callers ==> Phase(s, s.callers[i]))
    && (!s.closing ==> NoFlush(s))
  }

  // ---------------------------------------------------------------- preservation

  predicate Core(s: State) {
    s.segs != [] && InvEpoch(s) && InvMarkers(s) && InvFlush(s)
  }

  /** A candidate of the current generation may be queued whenever no flush is under way. */
  lemma PushKeepsCore(s: State, c: Candidate)
    requires Core(s) && !s.closing && c.epoch == s.epoch && c.gen == s.gen
    ensures Core(Push(s, c))
  {
    var t := Push(s, c);
    forall m ensures Count(s.markers + [CandidateQueue], m) == Count(s.markers, m) + if m == CandidateQueue then 1 else 0 {
      CountAppend(s.markers, CandidateQueue, m);
    }
  }

  lemma {:induction false} PushFromKeepsCore(s: State, out: seq<Pair>, n: nat)
    requires Core(s) && !s.closing
    ensures Core(PushFrom(s, out, n))
    decreases |out| - n
  {
    if n >= |out| {
    } else {
      var c := Candidate(out[n], s.epoch, s.gen, |s.segs| - 1, n);
      PushKeepsCore(s, c);
      PushFromKeepsCore(Push(s, c), out, n + 1);
    }
  }

  /** The segments are history: no invariant here looks at them. */
  lemma SegmentsKeepCore(s: State, segs: seq<Segment>)
    requires Core(s) && segs != []
    ensures Core(s.(segs := segs))
  {}

  lemma FeedKeepsCore(s: State, data: seq<byte>)
    requires Core(s) && !s.closing
    ensures Core(Feed(s, data))
  {
    var k := |s.segs| - 1;
    var bytes := s.segs[k].bytes + data;
    var segs := s.segs[k := Segment(s.segs[k].gen, bytes, Emitted(bytes))];
    SegmentsKeepCore(s, segs);
    PushFromKeepsCore(s.(segs := segs), Emitted(bytes), |s.segs[k].out|);
  }

  lemma BeginKeepsCore(s: State)
    requires Core(s)
    ensures Core(Apply(s, Begin))
  {}

  lemma FinishKeepsCore(s: State, id: nat)
    requires Core(s) && Enabled(s, EndFinish(id))
    ensures Core(Apply(s, EndFinish(id)))
  {}

  lemma ResetKeepsCore(s: State)
    requires Core(s)
    ensures Core(ResetParser(s).(initDone := true))
  {}

  lemma TimerKeepsCore(s: State)
    requires Core(s)
    ensures Core(Apply(s, TimerFires))
  {
    if !s.timer {
      forall m ensures Count(s.markers + [TimerQueue], m) == Count(s.markers, m) + if m == TimerQueue then 1 else 0 {
        CountAppend(s.markers, TimerQueue, m);
      }
      PosAppend(s.markers, TimerQueue);
    }
  }

  lemma {:induction false} PosAppend(ms: seq<Member>, m: Member)
    ensures ControlQueue in ms ==> Pos(ms + [m]) == Pos(ms)
    ensures ControlQueue !in ms && m == ControlQueue ==> Pos(ms + [m]) == |ms|
  {
    if ms != [] && ms[0] != ControlQueue {
      PosAppend(ms[1..], m);
      assert (ms + [m])[1..] == ms[1..] + [m];
    }
  }

  lemma EndKeepsCore(s: State, a: Action)
    requires Core(s) && Enabled(s, a) && (a.EndClose? || a.EndDiscard? || a.EndSend? || a.EndTakeAck?)
    ensures Core(Apply(s, a))
  {
    if a.EndSend? {
      forall m ensures Count(s.markers + [ControlQueue], m) == Count(s.markers, m) + if m == ControlQueue then 1 else 0 {
        CountAppend(s.markers, ControlQueue, m);
      }
      PosAppend(s.markers, ControlQueue);
    }
  }

  lemma SelectKeepsMarkers(s: State)
    requires InvEpoch(s) && InvMarkers(s) && s.pc.AtSelect? && s.markers != []
    ensures InvEpoch(Filter(s)) && InvMarkers(Filter(s))
  {}

  lemma SelectKeepsFlush(s: State)
    requires InvFlush(s) && InvMarkers(s) && s.pc.AtSelect? && s.markers != []
    ensures InvFlush(Filter(s))
  {}

  lemma SelectKeepsCore(s: State)
    requires Core(s) && s.pc.AtSelect? && s.markers != []
    ensures Core(Filter(s))
  {
    SelectKeepsMarkers(s);
    SelectKeepsFlush(s);
  }

  lemma ReceiveCandidateKeepsCore(s: State)
    requires Core(s) && s.pc == Selected(CandidateQueue)
    ensures Core(Filter(s))
  {}

  lemma ReceiveTimerKeepsCore(s: State)
    requires Core(s) && s.pc == Selected(TimerQueue)
    ensures Core(Filter(s))
  {}

  lemma ReceiveControlKeepsCore(s: State)
    requires Core(s) && s.pc == Selected(ControlQueue)
    ensures Core(Filter(s))
  {
    SetNeverOverflows(s);
    CountZero(s.markers, CandidateQueue);
  }

  lemma ReadKeepsEpoch(s: State)
    requires InvEpoch(s) && InvMarkers(s) && (s.pc.ConsiderRead? || s.pc.FlushRead? || s.pc.PublishRead? || s.pc.AckGive?)
    ensures InvEpoch(Filter(s)) && InvMarkers(Filter(s))
  {}

  lemma ReadKeepsFlush(s: State)
    requires InvFlush(s) && (s.pc.ConsiderRead? || s.pc.FlushRead? || s.pc.PublishRead? || s.pc.AckGive?)
    ensures InvFlush(Filter(s))
  {}

  lemma ReadKeepsCore(s: State)
    requires Core(s) && (s.pc.ConsiderRead? || s.pc.FlushRead? || s.pc.PublishRead? || s.pc.AckGive?)
    ensures Core(Filter(s))
  {
    ReadKeepsEpoch(s);
    ReadKeepsFlush(s);
  }

  lemma ConsiderKeepsCore(s: State)
    requires Core(s) && s.pc.ConsiderApply?
    ensures Core(Filter(s))
  {}

  lemma PublishKeepsEpoch(s: State)
    requires Core(s) && s.pc.PublishApply?
    ensures InvEpoch(Filter(s))
  {}

  lemma PublishKeepsMarkers(s: State)
    requires Core(s) && s.pc.PublishApply?
    ensures InvMarkers(Filter(s))
  {}

  lemma FlushPublishKeepsFlush(s: State)
    requires InvFlush(s) && s.pc.PublishApply? && s.pc.flush
    ensures InvFlush(Filter(s))
  {}

  lemma TimedPublishKeepsFlush(s: State)
    requires InvFlush(s) && s.pc.PublishApply? && !s.pc.flush
    ensures InvFlush(Filter(s))
  {}

  lemma PublishKeepsCore(s: State)
    requires Core(s) && s.pc.PublishApply?
    ensures Core(Filter(s))
  {
    PublishKeepsEpoch(s);
    PublishKeepsMarkers(s);
    if s.pc.flush { FlushPublishKeepsFlush(s); } else { TimedPublishKeepsFlush(s); }
  }

  lemma FilterKeepsCore(s: State)
    requires Core(s) && Enabled(s, FilterStep)
    ensures Core(Filter(s))
  {
    match s.pc
    case AtSelect => SelectKeepsCore(s);
    case Selected(CandidateQueue) => ReceiveCandidateKeepsCore(s);
    case Selected(TimerQueue) => ReceiveTimerKeepsCore(s);
    case Selected(ControlQueue) => ReceiveControlKeepsCore(s);
    case ConsiderApply(_, _, _) => ConsiderKeepsCore(s);
    case PublishApply(_, _, _) => PublishKeepsCore(s);
    case _ => ReadKeepsCore(s);
  }

  /** Every action keeps the three invariants. */
  lemma ApplyKeepsCore(s: State, a: Action)
    requires Core(s) && Enabled(s, a)
    ensures Core(Apply(s, a))
  {
    match a
    case OverrideFeed(data) => if s.active && !s.closing { FeedKeepsCore(s, data); }
    case UartFeed(data) => if !s.active { FeedKeepsCore(s, data); }
    case TimerFires => TimerKeepsCore(s);
    case FilterStep => FilterKeepsCore(s);
    case Dispatch =>
    case EndClose(_) => EndKeepsCore(s, a);
    case EndDiscard(_) => EndKeepsCore(s, a);
    case EndSend(_) => EndKeepsCore(s, a);
    case EndTakeAck(_) => EndKeepsCore(s, a);
    case Begin => BeginKeepsCore(s);
    case InitReset => ResetKeepsCore(s);
    case EndFinish(id) => FinishKeepsCore(s, id);
  }
}
