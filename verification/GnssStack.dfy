/** The shared state of main/gnss.c and the code that works on it, section by section. Each method is
    one section under s_parser_mutex or one kernel call, and is proved to be its action of Protocol. */
module GnssStack {
  import opened Nmea
  import opened Framing
  import opened NmeaParser
  import opened Protocol
  import opened Publications
  import opened Switching
  import opened GnssRuns

  const INT_MAX := 0x7FFF_FFFF

  /** A candidate as it is queued: without the history the model keeps. */
  datatype Item = Item(pair: Pair, epoch: nat)

  datatype Status = OK | INVALID_STATE

  function Erased(c: Candidate): Item {
    Item(c.pair, c.epoch)
  }

  function ErasedAll(cs: seq<Candidate>): (r: seq<Item>)
    ensures |r| == |cs| && forall i :: 0 <= i < |cs| ==> r[i] == Erased(cs[i])
  {
    if cs == [] then [] else [Erased(cs[0])] + ErasedAll(cs[1..])
  }

  lemma ErasedAppend(cs: seq<Candidate>, c: Candidate)
    ensures ErasedAll(cs + [c]) == ErasedAll(cs) + [Erased(c)]
  {}

  /** The segments once the last one has grown. */
  ghost function Grown(segs: seq<Segment>, bytes: seq<byte>, out: seq<Pair>): seq<Segment>
    requires segs != []
  {
    segs[|segs| - 1 := Segment(segs[|segs| - 1].gen, bytes, out)]
  }

  lemma FeedIs(s: State, data: seq<byte>, bytes: seq<byte>, all: seq<Pair>)
    requires s.segs != [] && bytes == s.segs[|s.segs| - 1].bytes + data && all == Emitted(bytes)
    ensures Feed(s, data) == PushFrom(s.(segs := Grown(s.segs, bytes, all)), all, |s.segs[|s.segs| - 1].out|)
  {}

  /** The fields of the class, and what they are in a state of the model. */
  datatype Shared = Shared(active: bool, closing: bool, epoch: nat, candidates: seq<Item>, timer: bool, controls: seq<nat>,
                           markers: seq<Member>, ack: bool, slot: Option<Publication>, best: Option<Item>, nextSequence: nat)

  ghost function Image(s: State): Shared {
    Shared(s.active, s.closing, s.epoch, ErasedAll(s.candidates), s.timer, s.controls, s.markers, s.ack, s.slot,
           if s.best.Some? then Some(Erased(s.best.value)) else None, s.nextSequence)
  }

  class Gnss {
    const parser: Parser
    var overrideActive: bool
    var overrideClosing: bool
    var inputEpoch: nat
    var candidateQueue: seq<Item>
    var timerEvent: bool
    var controlQueue: seq<nat>
    var queueSet: seq<Member>
    var flushDone: bool
    var publicationQueue: Option<Publication>
    // the filter task's own variables
    var best: Option<Item>
    var nextSequence: nat
    ghost var model: State

    ghost predicate ParserValid()
      reads this, parser, parser.sentence, parser.pendingGga
    {
      parser.Valid() && Current(model.segs) && parser.fed == model.segs[|model.segs| - 1].bytes
    }

    ghost function Fields(): Shared
      reads this
    {
      Shared(overrideActive, overrideClosing, inputEpoch, candidateQueue, timerEvent, controlQueue, queueSet, flushDone,
             publicationQueue, best, nextSequence)
    }

    ghost predicate Shown()
      reads this
    {
      Fields() == Image(model)
    }

    ghost predicate Valid()
      reads this, parser, parser.sentence, parser.pendingGga
    {
      ParserValid() && Shown()
    }

    constructor ()
      ensures Valid() && model == INITIAL && fresh(parser) && fresh(parser.sentence) && fresh(parser.pendingGga)
    {
      parser := new Parser();
      overrideActive, overrideClosing, inputEpoch := false, false, 1;
      candidateQueue, timerEvent, controlQueue, queueSet := [], false, [], [];
      flushDone, publicationQueue, best, nextSequence := false, None, None, 1;
      model := INITIAL;
      NothingFed();
    }

    // -------------------------------------------------------------- source switches

    method InputEpochAdvance()
      modifies this`inputEpoch
      ensures inputEpoch == Advance(old(inputEpoch)) && inputEpoch !in {0, old(inputEpoch)}
    {
      inputEpoch := Increment(inputEpoch);
      if inputEpoch == 0 {
        inputEpoch := Increment(inputEpoch);
      }
    }

    /** What begin and end both do: set the flags, open a new epoch, blank the parser. */
    method SwitchSource(active: bool, ghost callers: map<nat, EndPc>)
      requires Valid()
      modifies this`overrideActive, this`overrideClosing, this`inputEpoch, this`model, parser, parser.sentence, parser.pendingGga
      ensures Valid() && model == Switch(old(model).(active := active, closing := false, callers := callers))
    {
      parser.Reset();
      overrideActive := active;
      overrideClosing := false;
      InputEpochAdvance();
      model := Switch(model.(active := active, closing := false, callers := callers));
      NothingFed();
    }

    method OverrideBegin() returns (status: Status)
      requires Valid()
      modifies this, parser, parser.sentence, parser.pendingGga
      ensures Valid() && model == Apply(old(model), Begin)
      ensures status == if old(overrideActive) then INVALID_STATE else OK
    {
      if overrideActive {
        return INVALID_STATE;
      }
      SwitchSource(true, model.callers);
      return OK;
    }

    /** gnss_candidate_send. */
    method CandidateSend(c: Item, ghost whole: Candidate)
      requires Shown() && c == Erased(whole)
      modifies this`candidateQueue, this`queueSet, this`model
      ensures Shown() && model == Push(old(model), whole)
    {
      if |candidateQueue| < CANDIDATE_QUEUE_LENGTH {
        ErasedAppend(model.candidates, whole);
        candidateQueue := candidateQueue + [c];
        queueSet := queueSet + [CandidateQueue];
      }
      model := Push(model, whole);
    }

    /** The k-th of the candidates. */
    method SendAt(pair: Pair, ghost all: seq<Pair>, ghost k: nat)
      requires Shown() && model.segs != [] && k < |all| && all[k] == pair
      modifies this`candidateQueue, this`queueSet, this`model
      ensures Shown() && model.segs == old(model.segs) && PushFrom(model, all, k + 1) == PushFrom(old(model), all, k)
    {
      PushFromStep(model, all, k);
      CandidateSend(Item(pair, inputEpoch), Candidate(pair, model.epoch, model.gen, |model.segs| - 1, k));
    }

    /** The candidates a feed completes, sent one by one. */
    method SendAll(out: seq<Pair>, ghost all: seq<Pair>, ghost n: nat)
      requires Shown() && model.segs != [] && n <= |all| && all[n..] == out
      modifies this`candidateQueue, this`queueSet, this`model
      ensures Shown() && model.segs == old(model.segs) && model == PushFrom(old(model), all, n)
      decreases |out|
    {
      if out == [] {
        NoneLeft(model, all);
      } else {
        FirstOf(all, n, out);
        SendAt(out[0], all, n);
        SendAll(out[1..], all, n + 1);
      }
    }

    /** nmea_parser_feed on the shared parser, with what it sends. */
    method ParserFeed(data: seq<byte>)
      requires Valid()
      modifies this`candidateQueue, this`queueSet, this`model, parser, parser.sentence, parser.pendingGga
      ensures Valid() && model == Feed(old(model), data)
    {
      ghost var before := Emitted(parser.fed);
      assert before == model.segs[|model.segs| - 1].out;
      var out := parser.Feed(data);
      ghost var all := Emitted(parser.fed);
      assert all == before + out;
      assert Shown();
      FeedIs(model, data, parser.fed, all);
      SendFed(out, parser.fed, all);
    }

    method SendFed(out: seq<Pair>, ghost bytes: seq<byte>, ghost all: seq<Pair>)
      requires Shown() && model.segs != [] && all == model.segs[|model.segs| - 1].out + out
      modifies this`candidateQueue, this`queueSet, this`model
      ensures Shown() && model.segs == Grown(old(model).segs, bytes, all)
      ensures model == PushFrom(old(model).(segs := Grown(old(model).segs, bytes, all)), all, |all| - |out|)
    {
      model := model.(segs := Grown(model.segs, bytes, all));
      SendAll(out, all, |all| - |out|);
    }

    /** gnss_uart_input_feed. Its callers are the init task past its reset, and the UART task that the
        init task starts. */
    method UartInputFeed(data: seq<byte>)
      requires Valid() && model.initDone
      modifies this, parser, parser.sentence, parser.pendingGga
      ensures Valid() && model == Apply(old(model), UartFeed(data))
    {
      if !overrideActive {
        ParserFeed(data);
      }
    }

    /** Feeds at most INT_MAX bytes at a time. */
    method OverrideFeed(data: seq<byte>) returns (status: Status)
      requires Valid()
      modifies this, parser, parser.sentence, parser.pendingGga
      ensures Valid() && model == Apply(old(model), Action.OverrideFeed(data))
      ensures status == if old(overrideActive) && !old(overrideClosing) then OK else INVALID_STATE
    {
      if !overrideActive || overrideClosing {
        return INVALID_STATE;
      }
      FeedInChunks(data);
      return OK;
    }

    method FeedInChunks(data: seq<byte>)
      requires Valid()
      modifies this, parser, parser.sentence, parser.pendingGga
      ensures Valid() && model == Feed(old(model), data)
    {
      var index := 0;
      assert data[0..] == data;
      while index < |data|
        invariant index <= |data| && Valid()
        invariant Feed(model, data[index..]) == Feed(old(model), data)
      {
        index := FeedChunk(data, index);
      }
      FeedNothing(model);
    }

    method FeedChunk(data: seq<byte>, index: nat) returns (next: nat)
      requires Valid() && index < |data|
      modifies this, parser, parser.sentence, parser.pendingGga
      ensures Valid() && index < next <= |data| && next - index <= INT_MAX
      ensures Feed(model, data[next..]) == Feed(old(model), data[index..])
    {
      next := index + if |data| - index > INT_MAX then INT_MAX else |data| - index;
      assert data[index..] == data[index..next] + data[next..];
      FeedSplits(model, data[index..next], data[next..]);
      ParserFeed(data[index..next]);
    }

    /** The one reset gnss_init_task makes. */
    method InitTaskReset()
      requires Valid() && !model.initDone
      modifies this`model, parser, parser.sentence, parser.pendingGga
      ensures Valid() && model == Apply(old(model), InitReset)
    {
      parser.Reset();
      model := Apply(model, InitReset);
      NothingFed();
    }

    // -------------------------------------------------------------- gnss_input_override_end, section by section
    // None of these touches the parser, so they ask for Shown and keep the segments.

    method OverrideClose(ghost id: nat) returns (control: Option<nat>)
      requires Shown() && id !in model.callers && model.segs != []
      modifies this`overrideClosing, this`model
      ensures Shown() && model == Apply(old(model), EndClose(id))
      ensures control == if old(overrideActive) && !old(overrideClosing) then Some(inputEpoch) else None
    {
      model := Apply(model, EndClose(id));
      if overrideActive && !overrideClosing {
        overrideClosing := true;
        return Some(inputEpoch);
      }
      return None;
    }

    method DiscardAck(ghost id: nat)
      requires Shown() && model.segs != [] && Enabled(model, EndDiscard(id))
      modifies this`flushDone, this`model
      ensures Shown() && model == Apply(old(model), EndDiscard(id))
    {
      flushDone := false;
      model := Apply(model, EndDiscard(id));
    }

    /** Blocks while the control queue is full: it is called when it is not. */
    method SendControl(ghost id: nat, control: nat)
      requires Shown() && model.segs != [] && Enabled(model, EndSend(id)) && control == model.callers[id].control
      modifies this`controlQueue, this`queueSet, this`model
      ensures Shown() && model == Apply(old(model), EndSend(id))
    {
      controlQueue := controlQueue + [control];
      queueSet := queueSet + [ControlQueue];
      model := Apply(model, EndSend(id));
    }

    /** Blocks until the acknowledgement is there. */
    method TakeAck(ghost id: nat)
      requires Shown() && model.segs != [] && Enabled(model, EndTakeAck(id))
      modifies this`flushDone, this`model
      ensures Shown() && model == Apply(old(model), EndTakeAck(id))
    {
      flushDone := false;
      model := Apply(model, EndTakeAck(id));
    }

    method OverrideFinish(ghost id: nat)
      requires Valid() && Enabled(model, EndFinish(id))
      modifies this`overrideActive, this`overrideClosing, this`inputEpoch, this`model, parser, parser.sentence, parser.pendingGga
      ensures Valid() && model == Apply(old(model), EndFinish(id))
    {
      SwitchSource(false, model.callers - {id});
    }

    // -------------------------------------------------------------- the timer and the dispatcher

    /** xQueueOverwrite on a queue of one: a full one gets no second marker. */
    method SelectionTimerCallback()
      requires Shown() && model.segs != []
      modifies this`timerEvent, this`queueSet, this`model
      ensures Shown() && model == Apply(old(model), TimerFires)
    {
      if !timerEvent {
        queueSet := queueSet + [TimerQueue];
      }
      timerEvent := true;
      model := Apply(model, TimerFires);
    }

    method PublicationReceive() returns (publication: Option<Publication>)
      requires Shown() && model.segs != []
      modifies this`publicationQueue, this`model
      ensures Shown() && publication == old(publicationQueue)
      ensures model == if publication.Some? then Apply(old(model), Dispatch) else old(model)
    {
      publication := publicationQueue;
      publicationQueue := None;
      model := if publication.Some? then Apply(model, Dispatch) else model;
    }

    // -------------------------------------------------------------- the filter task
    // model.pc says where the filter task stands; its locals are the parameters.

    /** Blocks while the set is empty. */
    method Select() returns (ready: Member)
      requires Shown() && model.pc.AtSelect? && queueSet != []
      modifies this`queueSet, this`model
      ensures Shown() && model == Filter(old(model)) && model.pc == Selected(ready)
    {
      ready := queueSet[0];
      queueSet := queueSet[1..];
      model := Filter(model);
    }

    method ReceiveCandidate() returns (candidate: Option<Item>)
      requires Shown() && model.pc == Selected(CandidateQueue)
      modifies this`candidateQueue, this`model
      ensures Shown() && model == Filter(old(model))
      ensures if candidate.Some? then model.pc.ConsiderRead? && Erased(model.pc.c) == candidate.value else model.pc.AtSelect?
    {
      model := Filter(model);
      if candidateQueue == [] {
        return None;
      }
      candidate := Some(candidateQueue[0]);
      candidateQueue := candidateQueue[1..];
    }

    method ReceiveTimer()
      requires Shown() && model.pc == Selected(TimerQueue)
      modifies this`timerEvent, this`model
      ensures Shown() && model == Filter(old(model)) && model.pc == PublishRead(false)
    {
      timerEvent := false;
      model := Filter(model);
    }

    method ReceiveControl() returns (control: Option<nat>)
      requires Shown() && model.pc == Selected(ControlQueue)
      modifies this`controlQueue, this`model
      ensures Shown() && model == Filter(old(model))
      ensures model.pc == if control.Some? then FlushRead(control.value) else AtSelect
    {
      model := Filter(model);
      if controlQueue == [] {
        return None;
      }
      control := Some(controlQueue[0]);
      controlQueue := controlQueue[1..];
    }

    /** gnss_input_epoch_get, at any of the three places that call it. */
    method InputEpochGet() returns (epoch: nat)
      requires Shown() && (model.pc.ConsiderRead? || model.pc.FlushRead? || model.pc.PublishRead?)
      modifies this`model
      ensures Shown() && model == Filter(old(model)) && epoch == inputEpoch
    {
      model := Filter(model);
      return inputEpoch;
    }

    /** consider_candidate after its epoch read. */
    method ConsiderCandidate(candidate: Item, epoch: nat)
      requires Shown() && model.pc.ConsiderApply? && candidate == Erased(model.pc.c) && epoch == model.pc.epoch
      modifies this`best, this`model
      ensures Shown() && model == Filter(old(model)) && model.pc.AtSelect?
    {
      model := Filter(model);
      if candidate.epoch != epoch {
        return;
      }
      if best.Some? && best.value.epoch != epoch {
        best := None;
      }
      if best.None? || candidate.pair.hdop < best.value.pair.hdop {
        best := Some(candidate);
      }
    }

    /** publish_best_candidate after its epoch read. */
    method PublishBestCandidate(epoch: nat)
      requires Shown() && model.pc.PublishApply? && epoch == model.pc.epoch
      modifies this`best, this`nextSequence, this`publicationQueue, this`model
      ensures Shown() && model == Filter(old(model)) && model.pc == if old(model).pc.flush then AckGive else AtSelect
      ensures publicationQueue ==
              if old(best).Some? && old(best).value.epoch == epoch
              then var p := old(best).value.pair;
                   Some(Publication(old(nextSequence), |p.gga + p.rmc|, p.hdop, p.gga + p.rmc))
              else old(publicationQueue)
    {
      PublishImage(model);
      model := Filter(model);
      if best.Some? && best.value.epoch != epoch {
        best := None;
      }
      if best.None? {
        return;
      }
      var pair := best.value.pair;
      publicationQueue := Some(Publication(nextSequence, |pair.gga| + |pair.rmc|, pair.hdop, pair.gga + pair.rmc));
      nextSequence := Increment(nextSequence);
      best := None;
    }

    method FlushDoneGive()
      requires Shown() && model.pc.AckGive?
      modifies this`flushDone, this`model
      ensures Shown() && model == Filter(old(model)) && model.pc.AtSelect?
    {
      flushDone := true;
      model := Filter(model);
    }

    /** One pass of the filter task's loop, undisturbed: select, then serve what was selected. */
    method FilterPass()
      requires Shown() && InvMarkers(model) && model.pc.AtSelect? && queueSet != []
      modifies this`candidateQueue, this`timerEvent, this`controlQueue, this`queueSet, this`flushDone,
               this`publicationQueue, this`best, this`nextSequence, this`model
      ensures Shown() && model == Pass(old(model))
    {
      PassIsSteps(model);
      SetNeverOverflows(model);
      var ready := Select();
      match ready {
        case CandidateQueue => ServeCandidate();
        case TimerQueue => ServeTimer();
        case ControlQueue => ServeControl();
      }
    }

    method ServeCandidate()
      requires Shown() && model.pc == Selected(CandidateQueue)
      modifies this`candidateQueue, this`best, this`model
      ensures Shown() && model == Undisturbed(old(model))
    {
      ghost var s0 := model;
      var candidate := ReceiveCandidate();
      OneStep(s0);
      if candidate.Some? {
        ghost var s1 := model;
        var epoch := InputEpochGet();
        OneStep(s1);
        ghost var s2 := model;
        ConsiderCandidate(candidate.value, epoch);
        OneStep(s2);
      }
      NoStep(model);
    }

    method ServeTimer()
      requires Shown() && model.pc == Selected(TimerQueue)
      modifies this`timerEvent, this`publicationQueue, this`best, this`nextSequence, this`model
      ensures Shown() && model == Undisturbed(old(model))
    {
      ghost var s0 := model;
      ReceiveTimer();
      OneStep(s0);
      ReadAndPublish();
      NoStep(model);
    }

    method ReadAndPublish()
      requires Shown() && model.pc.PublishRead?
      modifies this`publicationQueue, this`best, this`nextSequence, this`model
      ensures Shown() && Undisturbed(model) == Undisturbed(old(model))
      ensures model.pc == if old(model).pc.flush then AckGive else AtSelect
    {
      ghost var s0 := model;
      var epoch := InputEpochGet();
      OneStep(s0);
      ghost var s1 := model;
      PublishBestCandidate(epoch);
      OneStep(s1);
    }

    method ServeControl()
      requires Shown() && model.pc == Selected(ControlQueue)
      modifies this`controlQueue, this`flushDone, this`publicationQueue, this`best, this`nextSequence, this`model
      ensures Shown() && model == Undisturbed(old(model))
    {
      ghost var s0 := model;
      var control := ReceiveControl();
      OneStep(s0);
      if control.Some? {
        Flush(control.value);
      }
      NoStep(model);
    }

    method Flush(control: nat)
      requires Shown() && model.pc == FlushRead(control)
      modifies this`flushDone, this`publicationQueue, this`best, this`nextSequence, this`model
      ensures Shown() && Undisturbed(model) == Undisturbed(old(model)) && model.pc.AtSelect?
    {
      ghost var s0 := model;
      var current := InputEpochGet();
      OneStep(s0);
      if control == current {
        ReadAndPublish();
      }
      ghost var s1 := model;
      FlushDoneGive();
      OneStep(s1);
    }
  }

  /** What publishing does to the fields. */
  function PublishedFields(f: Shared, e: nat): Shared {
    var fresh' := f.best.Some? && f.best.value.epoch == e;
    f.(best := None,
       slot := if fresh'
               then Some(Publication(f.nextSequence, |f.best.value.pair.gga| + |f.best.value.pair.rmc|, f.best.value.pair.hdop,
                                     f.best.value.pair.gga + f.best.value.pair.rmc))
               else f.slot,
       nextSequence := if fresh' then Increment(f.nextSequence) else f.nextSequence)
  }

  lemma PublishImage(s: State)
    requires s.pc.PublishApply?
    ensures Image(Filter(s)) == PublishedFields(Image(s), s.pc.epoch)
    ensures Filter(s).pc == if s.pc.flush then AckGive else AtSelect
  {}

  /** The filter's steps up to its next select, with no other actor in between. */
  function Undisturbed(s: State): State
    decreases if s.pc == Selected(ControlQueue) then 5 else Busy(s.pc)
  {
    if s.pc.AtSelect? then s else Undisturbed(Filter(s))
  }

  lemma OneStep(s: State)
    requires !s.pc.AtSelect?
    ensures Undisturbed(s) == Undisturbed(Filter(s))
  {}

  lemma NoStep(s: State)
    requires s.pc.AtSelect?
    ensures Undisturbed(s) == s
  {}

  /** What one undisturbed pass of the loop amounts to: it considers the oldest candidate, closes the
      window, or closes it and acknowledges. */
  function Pass(s: State): State
    requires s.pc.AtSelect? && s.markers != [] && InvMarkers(s)
  {
    SetNeverOverflows(Filter(s));
    var t := s.(markers := s.markers[1..]);
    match s.markers[0]
    case CandidateQueue =>
      var (best, window) := Choose(s.best, s.window, s.candidates[0], s.epoch);
      t.(candidates := s.candidates[1..], best := best, window := window)
    case TimerQueue => Publish(t.(timer := false), s.epoch, AtSelect)
    case ControlQueue =>
      var u := t.(controls := s.controls[1..]);
      if s.controls[0] == s.epoch then Publish(u, s.epoch, AtSelect).(ack := true) else u.(ack := true)
  }

  lemma PassIsSteps(s: State)
    requires s.pc.AtSelect? && s.markers != [] && InvMarkers(s)
    ensures Pass(s) == Undisturbed(Filter(s))
  {
    SetNeverOverflows(Filter(s));
    var t := s.(markers := s.markers[1..], pc := Selected(s.markers[0]));
    assert Filter(s) == t;
    match s.markers[0]
    case CandidateQueue => CandidateSteps(t);
    case TimerQueue => PublishSteps(t.(timer := false, pc := PublishRead(false)));
    case ControlQueue => ControlSteps(t);
  }

  lemma CandidateSteps(s: State)
    requires s.pc == Selected(CandidateQueue) && s.candidates != []
    ensures Undisturbed(s) == Consider(s.(candidates := s.candidates[1..]), s.candidates[0], s.epoch)
  {
    var c := s.candidates[0];
    var t := s.(candidates := s.candidates[1..], pc := ConsiderRead(c));
    var u := t.(pc := ConsiderApply(c, s.epoch, s.gen));
    assert Filter(s) == t && Filter(t) == u && Filter(u) == Consider(t, c, s.epoch);
    assert Undisturbed(u) == Consider(t, c, s.epoch);
  }

  lemma PublishSteps(s: State)
    requires s.pc.PublishRead?
    ensures Undisturbed(s) == if s.pc.flush then Publish(s, s.epoch, AtSelect).(ack := true) else Publish(s, s.epoch, AtSelect)
  {
    var t := s.(pc := PublishApply(s.pc.flush, s.epoch, s.gen));
    var u := Publish(s, s.epoch, if s.pc.flush then AckGive else AtSelect);
    assert Filter(s) == t && Filter(t) == u;
    assert Undisturbed(t) == Undisturbed(u);
    if s.pc.flush {
      assert Undisturbed(u) == u.(ack := true, pc := AtSelect);
    }
  }

  /** The filter has received the control c. */
  lemma CompareStep(s: State, c: nat)
    requires s.pc == FlushRead(c)
    ensures Undisturbed(s) == Undisturbed(s.(pc := if c == s.epoch then PublishRead(true) else AckGive))
  {}

  lemma AckStep(s: State)
    requires s.pc.AckGive?
    ensures Undisturbed(s) == s.(ack := true, pc := AtSelect)
  {
    assert Filter(s) == s.(ack := true, pc := AtSelect);
  }

  lemma ReceiveStepOf(s: State)
    requires s.pc == Selected(ControlQueue) && s.controls != []
    ensures Undisturbed(s) == Undisturbed(s.(controls := s.controls[1..], pc := FlushRead(s.controls[0])))
  {}

  lemma PublishForgetsPc(s: State, pc: FilterPc, e: nat)
    ensures Publish(s.(pc := pc), e, AtSelect) == Publish(s, e, AtSelect)
  {}

  lemma MatchSteps(s: State)
    requires s.pc == Selected(ControlQueue) && s.controls != [] && s.controls[0] == s.epoch
    ensures Undisturbed(s) == Publish(s.(controls := s.controls[1..], pc := AtSelect), s.epoch, AtSelect).(ack := true)
  {
    var u := s.(controls := s.controls[1..], pc := AtSelect);
    ReceiveStepOf(s);
    CompareStep(u.(pc := FlushRead(s.epoch)), s.epoch);
    PublishSteps(u.(pc := PublishRead(true)));
    PublishForgetsPc(u, PublishRead(true), s.epoch);
  }

  lemma MismatchSteps(s: State)
    requires s.pc == Selected(ControlQueue) && s.controls != [] && s.controls[0] != s.epoch
    ensures Undisturbed(s) == s.(controls := s.controls[1..], pc := AtSelect, ack := true)
  {
    var u := s.(controls := s.controls[1..]);
    ReceiveStepOf(s);
    CompareStep(u.(pc := FlushRead(s.controls[0])), s.controls[0]);
    AckStep(u.(pc := AckGive));
  }

  lemma ControlSteps(s: State)
    requires s.pc == Selected(ControlQueue) && s.controls != []
    ensures var u := s.(controls := s.controls[1..], pc := AtSelect);
            Undisturbed(s) == if s.controls[0] == s.epoch then Publish(u, s.epoch, AtSelect).(ack := true) else u.(ack := true)
  {
    if s.controls[0] == s.epoch {
      MatchSteps(s);
    } else {
      MismatchSteps(s);
    }
  }

  lemma FirstOf<T>(all: seq<T>, n: nat, out: seq<T>)
    requires n <= |all| && all[n..] == out && out != []
    ensures n < |all| && all[n] == out[0] && all[n + 1..] == out[1..]
  {}

  lemma NoneLeft(s: State, all: seq<Pair>)
    requires s.segs != []
    ensures PushFrom(s, all, |all|) == s
  {}

  /** Feeding nothing changes nothing. */
  lemma FeedNothing(s: State)
    requires Current(s.segs)
    ensures Feed(s, []) == s
  {
    var k := |s.segs| - 1;
    assert s.segs[k].bytes + [] == s.segs[k].bytes;
    assert s.segs[k := s.segs[k]] == s.segs;
  }
}
