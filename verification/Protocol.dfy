/** The GNSS pipeline of main/gnss.c as an interleaved transition system. Its actors are the callers of
    gnss_input_override_begin/feed/end, the UART reader, the init task, the window timer, the filter
    task and the dispatcher that takes publications. One action is one section under s_parser_mutex or
    one kernel call; the filter's two epoch reads are separate from the decisions made on them. */
module Protocol {
  import opened Nmea
  import opened Basics
  import opened Framing

  const CANDIDATE_QUEUE_LENGTH := 8
  const SET_LENGTH := 10

  /** The increment of a 32-bit counter. */
  function Increment(n: nat): nat {
    if n + 1 < WORD then n + 1 else 0
  }

  /** gnss_input_epoch_advance: such a counter that skips zero. */
  function Advance(e: nat): nat {
    var n := Increment(e);
    if n == 0 then Increment(n) else n
  }

  // ---------------------------------------------------------------- state

  /** A queued candidate. gen, seg and n are history: the number of source switches made before it
      was parsed, the stretch of bytes between two parser resets it was parsed from, and its place
      among the candidates of that stretch. */
  datatype Candidate = Candidate(pair: Pair, epoch: nat, gen: nat, seg: nat, n: nat)

  /** The bytes fed between two parser resets, and the candidates they give. */
  datatype Segment = Segment(gen: nat, bytes: seq<byte>, out: seq<Pair>)

  datatype Publication = Publication(sequence: nat, len: nat, hdop: int, data: seq<byte>)

  /** A publication made, the candidate it shows, the candidates considered for it, and the number of
      source switches made before it appeared. */
  datatype Record = Record(publication: Publication, winner: Candidate, window: seq<Candidate>, at: nat)

  datatype Member = CandidateQueue | TimerQueue | ControlQueue

  /** Where the filter task stands. An epoch it has read travels with it; `gen` is when it was read. */
  datatype FilterPc =
    | AtSelect
    | Selected(member: Member)
    | ConsiderRead(c: Candidate)
    | ConsiderApply(c: Candidate, epoch: nat, gen: nat)
    | FlushRead(control: nat)
    | PublishRead(flush: bool)
    | PublishApply(flush: bool, epoch: nat, gen: nat)
    | AckGive

  /** Where a call of gnss_input_override_end that has to flush stands. */
  datatype EndPc = Discard(control: nat) | Send(control: nat) | AwaitAck | Finish

  datatype State = State(
    active: bool, closing: bool, epoch: nat,
    candidates: seq<Candidate>, timer: bool, controls: seq<nat>, markers: seq<Member>, ack: bool,
    pc: FilterPc, best: Option<Candidate>, nextSequence: nat, slot: Option<Publication>,
    callers: map<nat, EndPc>, initDone: bool,
    // history
    gen: nat, segs: seq<Segment>, accepted: seq<Candidate>, window: seq<Candidate>, pubs: seq<Record>)

  const INITIAL := State(false, false, 1, [], false, [], [], false, AtSelect, None, 1, None, map[], false,
                         0, [Segment(0, [], [])], [], [], [])

  // ---------------------------------------------------------------- actions

  datatype Action =
    | Begin
    | OverrideFeed(data: seq<byte>)
    | UartFeed(data: seq<byte>)
    | InitReset
    | EndClose(id: nat)
    | EndDiscard(id: nat)
    | EndSend(id: nat)
    | EndTakeAck(id: nat)
    | EndFinish(id: nat)
    | TimerFires
    | FilterStep
    | Dispatch

  /** The UART is first fed by the init task after its reset, and then by the task it starts. */
  predicate Enabled(s: State, a: Action) {
    match a
    case UartFeed(_) => s.initDone
    case InitReset => !s.initDone
    case EndClose(id) => id !in s.callers
    case EndDiscard(id) => id in s.callers && s.callers[id].Discard?
    case EndSend(id) => id in s.callers && s.callers[id].Send? && s.controls == []
    case EndTakeAck(id) => id in s.callers && s.callers[id].AwaitAck? && s.ack
    case EndFinish(id) => id in s.callers && s.callers[id].Finish?
    case FilterStep => s.pc.AtSelect? ==> s.markers != []
    case Dispatch => s.slot.Some?
    case _ => true
  }

  ghost function Apply(s: State, a: Action): State
    requires s.segs != [] && Enabled(s, a)
  {
    match a
    case Begin => if s.active then s else Switch(s.(active := true, closing := false))
    case OverrideFeed(data) => if !s.active || s.closing then s else Feed(s, data)
    case UartFeed(data) => if s.active then s else Feed(s, data)
    case InitReset => ResetParser(s).(initDone := true)
    case EndClose(id) =>
      var flush := s.active && !s.closing;
      s.(closing := flush || s.closing, callers := if flush then s.callers[id := Discard(s.epoch)] else s.callers)
    case EndDiscard(id) => s.(ack := false, callers := s.callers[id := Send(s.callers[id].control)])
    case EndSend(id) =>
      s.(controls := s.controls + [s.callers[id].control], markers := s.markers + [ControlQueue],
         callers := s.callers[id := AwaitAck])
    case EndTakeAck(id) => s.(ack := false, callers := s.callers[id := Finish])
    case EndFinish(id) => Switch(s.(active := false, closing := false, callers := s.callers - {id}))
    case TimerFires => s.(timer := true, markers := if s.timer then s.markers else s.markers + [TimerQueue])
    case FilterStep => Filter(s)
    case Dispatch => s.(slot := None)
  }

  function ResetParser(s: State): State {
    s.(segs := s.segs + [Segment(s.gen, [], [])])
  }

  /** Hands the parser to the other source. */
  function Switch(s: State): State {
    s.(epoch := Advance(s.epoch), gen := s.gen + 1, segs := s.segs + [Segment(s.gen + 1, [], [])])
  }

  /** xQueueSend with no wait: a full queue drops the newest candidate. */
  function Push(s: State, c: Candidate): State {
    var room := |s.candidates| < CANDIDATE_QUEUE_LENGTH;
    s.(candidates := if room then s.candidates + [c] else s.candidates,
       markers := if room then s.markers + [CandidateQueue] else s.markers,
       accepted := if room then s.accepted + [c] else s.accepted)
  }

  function PushFrom(s: State, out: seq<Pair>, n: nat): State
    requires s.segs != []
    decreases |out| - n
  {
    if n >= |out| then s
    else PushFrom(Push(s, Candidate(out[n], s.epoch, s.gen, |s.segs| - 1, n)), out, n + 1)
  }

  lemma PushFromStep(s: State, out: seq<Pair>, n: nat)
    requires s.segs != [] && n < |out|
    ensures var t := Push(s, Candidate(out[n], s.epoch, s.gen, |s.segs| - 1, n));
            PushFrom(s, out, n) == PushFrom(t, out, n + 1) && t.segs == s.segs
  {}

  ghost function Feed(s: State, data: seq<byte>): State
    requires s.segs != []
  {
    var k := |s.segs| - 1;
    var bytes := s.segs[k].bytes + data;
    var out := Emitted(bytes);
    PushFrom(s.(segs := s.segs[k := Segment(s.segs[k].gen, bytes, out)]), out, |s.segs[k].out|)
  }

  // ---------------------------------------------------------------- the filter task

  function Filter(s: State): State
    requires Enabled(s, FilterStep)
  {
    match s.pc
    case AtSelect => s.(markers := s.markers[1..], pc := Selected(s.markers[0]))
    case Selected(CandidateQueue) =>
      s.(candidates := if s.candidates == [] then [] else s.candidates[1..],
         pc := if s.candidates == [] then AtSelect else ConsiderRead(s.candidates[0]))
    case Selected(TimerQueue) => s.(timer := false, pc := PublishRead(false))
    case Selected(ControlQueue) =>
      s.(controls := if s.controls == [] then [] else s.controls[1..],
         pc := if s.controls == [] then AtSelect else FlushRead(s.controls[0]))
    case ConsiderRead(c) => s.(pc := ConsiderApply(c, s.epoch, s.gen))
    case ConsiderApply(c, e, _) => Consider(s, c, e)
    case FlushRead(control) => s.(pc := if control == s.epoch then PublishRead(true) else AckGive)
    case PublishRead(flush) => s.(pc := PublishApply(flush, s.epoch, s.gen))
    case PublishApply(flush, e, _) => Publish(s, e, if flush then AckGive else AtSelect)
    case AckGive => s.(ack := true, pc := AtSelect)
  }

  /** consider_candidate, once it has read epoch e: the best candidate and the candidates
      considered since the window opened. */
  function Choose(best: Option<Candidate>, window: seq<Candidate>, c: Candidate, e: nat): (Option<Candidate>, seq<Candidate>) {
    if c.epoch != e then (best, window)
    else if best.None? || best.value.epoch != e then (Some(c), [c])
    else (if c.pair.hdop < best.value.pair.hdop then Some(c) else best, window + [c])
  }

  function Consider(s: State, c: Candidate, e: nat): State {
    var (best, window) := Choose(s.best, s.window, c, e);
    s.(best := best, window := window, pc := AtSelect)
  }

  function Render(sequence: nat, c: Candidate): Publication {
    Publication(sequence, |c.pair.gga| + |c.pair.rmc|, c.pair.hdop, c.pair.gga + c.pair.rmc)
  }

  /** publish_best_candidate, once it has read epoch e. */
  function Publish(s: State, e: nat, next: FilterPc): State {
    var fresh' := s.best.Some? && s.best.value.epoch == e;
    s.(best := None, window := [], pc := next,
       slot := if fresh' then Some(Render(s.nextSequence, s.best.value)) else s.slot,
       nextSequence := if fresh' then Increment(s.nextSequence) else s.nextSequence,
       pubs := if fresh' then s.pubs + [Record(Render(s.nextSequence, s.best.value), s.best.value, s.window, s.gen)] else s.pubs)
  }

  // ---------------------------------------------------------------- runs

  /** The state after the actions, or None when one of them was not enabled. */
  ghost function After(acts: seq<Action>): (r: Option<State>)
    ensures r.Some? ==> r.value.segs != []
    decreases |acts|, 1
  {
    if acts == [] then Some(INITIAL) else Extended(acts)
  }

  /** The last action, taken after the others. */
  ghost function Extended(acts: seq<Action>): (r: Option<State>)
    requires acts != []
    ensures r.Some? ==> r.value.segs != []
    decreases |acts|, 0
  {
    var p, a := After(acts[..|acts| - 1]), acts[|acts| - 1];
    if p.Some? && Enabled(p.value, a) then ApplyKeepsSegments(p.value, a); Some(Apply(p.value, a)) else None
  }

  lemma ApplyKeepsSegments(s: State, a: Action)
    requires s.segs != [] && Enabled(s, a)
    ensures Apply(s, a).segs != []
  {
    match a
    case OverrideFeed(data) => FeedSegments(s, data);
    case UartFeed(data) => FeedSegments(s, data);
    case FilterStep => FilterSegments(s);
    case _ =>
  }

  lemma FilterSegments(s: State)
    requires Enabled(s, FilterStep)
    ensures Filter(s).segs == s.segs
  {
    match s.pc
    case Selected(m) => if m.CandidateQueue? {} else if m.TimerQueue? {} else {}
    case _ =>
  }

  lemma {:induction false} PushFromKeeps(s: State, out: seq<Pair>, n: nat)
    requires s.segs != []
    ensures PushFrom(s, out, n).segs == s.segs
    decreases |out| - n
  {
    if n >= |out| {
    } else {
      PushFromKeeps(Push(s, Candidate(out[n], s.epoch, s.gen, |s.segs| - 1, n)), out, n + 1);
    }
  }

  lemma FeedSegments(s: State, data: seq<byte>)
    requires s.segs != []
    ensures Feed(s, data).segs != []
  {
    var k := |s.segs| - 1;
    var bytes := s.segs[k].bytes + data;
    PushFromKeeps(s.(segs := s.segs[k := Segment(s.segs[k].gen, bytes, Emitted(bytes))]), Emitted(bytes), |s.segs[k].out|);
  }
}
