/** How a publication reaches the /stream clients (main/http_stream.c): the one-slot queue, the
    dispatcher that keeps the newest as a snapshot and then notifies every worker, and the workers that
    compare sequence numbers and sleep. Publications are numbered from 1; 0 stands for none. */
module FanOut {
  import opened Nmea
  import opened Basics

  datatype Dispatcher = Receiving | Storing(k: nat) | Notifying(i: nat)

  /** Where a worker stands: between clients, at its three calls, or with a publication to send. */
  datatype Pc = Away | Clearing | Looking | Sending(k: nat) | Sleeping | Peeking

  /** `sent` is what the present client has been sent, `last` the last of it. */
  datatype Worker = Worker(pc: Pc, notified: nat, last: nat, sent: seq<nat>)

  datatype State = State(made: nat, slot: Option<nat>, snapshot: nat, dispatcher: Dispatcher, workers: seq<Worker>)

  datatype Action =
    | Publish                     // xQueueOverwrite of the next publication
    | Dispatch                    // the dispatcher's next call
    | Serve(i: nat)               // a worker gets a client
    | Clear(i: nat)               // and drops old notifications
    | Look(i: nat)                // latest_publication_copy_if_new
    | Sent(i: nat, ok: bool)
    | Wake(i: nat, timeout: bool) // from ulTaskNotifyTake
    | Peek(i: nat, ok: bool)

  predicate At(s: State, i: nat, pc: Pc) {
    i < |s.workers| && s.workers[i].pc == pc
  }

  predicate Enabled(s: State, a: Action) {
    match a
    case Publish => true
    case Dispatch => s.dispatcher == Receiving ==> s.slot.Some?
    case Serve(i) => At(s, i, Away)
    case Clear(i) => At(s, i, Clearing)
    case Look(i) => At(s, i, Looking)
    case Sent(i, _) => i < |s.workers| && s.workers[i].pc.Sending?
    case Wake(i, timeout) => At(s, i, Sleeping) && (timeout || s.workers[i].notified > 0)
    case Peek(i, _) => At(s, i, Peeking)
  }

  /** The worker the action moves, afterwards. */
  function Moved(w: Worker, a: Action, snapshot: nat): Worker {
    match a
    case Serve(_) => Worker(Clearing, w.notified, 0, [])
    case Clear(_) => w.(notified := 0, pc := Looking)
    case Look(_) => w.(pc := if snapshot != 0 && Word(snapshot) != Word(w.last) then Sending(snapshot) else Sleeping)
    case Sent(_, ok) =>
      if ok && w.pc.Sending? then Worker(Looking, w.notified, w.pc.k, w.sent + [w.pc.k]) else w.(pc := Away)
    case Wake(_, _) => w.(notified := 0, pc := Peeking)
    case Peek(_, ok) => w.(pc := if ok then Looking else Away)
    case _ => w
  }

  function Notify(w: Worker): Worker {
    w.(notified := w.notified + 1)
  }

  function DispatchStep(s: State): State
    requires Enabled(s, Dispatch)
  {
    match s.dispatcher
    case Receiving => s.(slot := None, dispatcher := Storing(s.slot.value))
    case Storing(k) => s.(snapshot := k, dispatcher := Notifying(0))
    case Notifying(i) =>
      if i < |s.workers| then s.(workers := s.workers[i := Notify(s.workers[i])], dispatcher := Notifying(i + 1))
      else s.(dispatcher := Receiving)
  }

  function Next(s: State, a: Action): State
    requires Enabled(s, a)
  {
    match a
    case Publish => s.(made := s.made + 1, slot := Some(s.made + 1))
    case Dispatch => DispatchStep(s)
    case _ => s.(workers := s.workers[a.i := Moved(s.workers[a.i], a, s.snapshot)])
  }

  // ---------------------------------------------------------------- invariants

  /** The newest publication is the one furthest along that nothing newer has overtaken. */
  predicate Pipeline(s: State) {
    && s.snapshot <= s.made
    && (s.slot.Some? ==> s.slot.value == s.made)
    && (s.dispatcher.Storing? ==> s.snapshot <= s.dispatcher.k <= s.made)
    && (s.slot.None? ==> (if s.dispatcher.Storing? then s.dispatcher.k else s.snapshot) == s.made)
  }

  predicate Increasing(sent: seq<nat>) {
    forall j, k :: 0 <= j < k < |sent| ==> sent[j] < sent[k]
  }

  predicate Following(w: Worker, snapshot: nat) {
    && Increasing(w.sent) && (forall j :: 0 <= j < |w.sent| ==> 0 < w.sent[j] <= w.last)
    && w.last == (if w.sent == [] then 0 else w.sent[|w.sent| - 1]) && w.last <= snapshot
    && (w.pc.Sending? ==> w.last < w.pc.k <= snapshot)
  }

  /** A sleeping worker has nothing new, or a notification, or one coming in the present pass. */
  predicate Wakeful(s: State, i: nat)
    requires i < |s.workers|
  {
    var w := s.workers[i];
    w.pc == Sleeping ==>
      || Word(s.snapshot) == Word(w.last)
      || w.notified > 0
      || (s.dispatcher.Notifying? && s.dispatcher.i <= i)
  }

  predicate Sound(s: State) {
    && Pipeline(s)
    && forall i :: 0 <= i < |s.workers| ==> Following(s.workers[i], s.snapshot) && Wakeful(s, i)
  }

  lemma MovedFollows(w: Worker, a: Action, snapshot: nat)
    requires Following(w, snapshot)
    ensures Following(Moved(w, a, snapshot), snapshot)
  {}

  lemma NextIsSound(s: State, a: Action)
    requires Sound(s) && Enabled(s, a)
    ensures Sound(Next(s, a)) && |Next(s, a).workers| == |s.workers|
  {
    var t := Next(s, a);
    match a
    case Publish =>
    case Dispatch => DispatchIsSound(s);
    case _ =>
      MovedFollows(s.workers[a.i], a, s.snapshot);
      forall i | 0 <= i < |t.workers| ensures Wakeful(t, i) {
        assert Wakeful(s, i);
      }
  }

  lemma DispatchIsSound(s: State)
    requires Sound(s) && Enabled(s, Dispatch)
    ensures Sound(DispatchStep(s)) && |DispatchStep(s).workers| == |s.workers|
  {}

  // ---------------------------------------------------------------- runs

  function Start(n: nat): State {
    State(0, None, 0, Receiving, seq(n, _ => Worker(Away, 0, 0, [])))
  }

  function After(n: nat, acts: seq<Action>): Option<State> {
    if acts == [] then Some(Start(n))
    else
      var p, a := After(n, acts[..|acts| - 1]), acts[|acts| - 1];
      if p.Some? && Enabled(p.value, a) then Some(Next(p.value, a)) else None
  }

  lemma {:induction false} AlwaysSound(n: nat, acts: seq<Action>, s: State)
    requires After(n, acts) == Some(s)
    ensures Sound(s) && |s.workers| == n
  {
    if acts == [] {
    } else {
      var p := After(n, acts[..|acts| - 1]).value;
      AlwaysSound(n, acts[..|acts| - 1], p);
      NextIsSound(p, acts[|acts| - 1]);
    }
  }

  /** No wakeup is lost: a worker that sleeps on an old publication has been notified or will be before
      the dispatcher receives again. */
  lemma NoLostWakeup(n: nat, acts: seq<Action>, s: State, i: nat)
    requires After(n, acts) == Some(s) && At(s, i, Sleeping)
    ensures || Word(s.snapshot) == Word(s.workers[i].last) || s.workers[i].notified > 0
            || (s.dispatcher.Notifying? && s.dispatcher.i <= i)
  {
    AlwaysSound(n, acts, s);
    assert Wakeful(s, i);
  }

  /** What a client is sent is a strictly increasing selection of the publications made, wrap or no
      wrap. */
  lemma StreamsIncrease(n: nat, acts: seq<Action>, s: State, i: nat, j: nat, k: nat)
    requires After(n, acts) == Some(s) && i < |s.workers| && j < k < |s.workers[i].sent|
    ensures 0 < s.workers[i].sent[j] < s.workers[i].sent[k] <= s.made
  {
    AlwaysSound(n, acts, s);
    assert Following(s.workers[i], s.snapshot);
  }

  /** At rest: the last publication has been handed on, and the worker sleeps with no notification. */
  predicate AtRest(s: State, i: nat) {
    s.slot.None? && s.dispatcher == Receiving && At(s, i, Sleeping) && s.workers[i].notified == 0
  }

  /** At rest a client has the newest publication, unless the number it is behind is a multiple of
      2^32, which it cannot see. */
  lemma RestIsNewest(n: nat, acts: seq<Action>, s: State, i: nat)
    requires After(n, acts) == Some(s) && AtRest(s, i)
    ensures s.workers[i].last <= s.made && (s.made - s.workers[i].last) % WORD == 0
    ensures s.workers[i].last == s.made <==> s.made - s.workers[i].last < WORD
    ensures 0 < s.made < WORD ==> s.workers[i].sent != [] && s.workers[i].sent[|s.workers[i].sent| - 1] == s.made
  {
    AlwaysSound(n, acts, s);
    var w := s.workers[i];
    assert Following(w, s.snapshot) && Wakeful(s, i);
    SameSequence(s.made, w.last);
  }

  lemma SameSequence(a: nat, b: nat)
    requires b <= a && Word(a) == Word(b)
    ensures (a - b) % WORD == 0 && (a - b < WORD ==> a == b)
  {}

  /** A look finds nothing new exactly when there is none or its number differs by a multiple of 2^32. */
  lemma LookMisses(w: Worker, snapshot: nat)
    requires Following(w, snapshot) && snapshot > 0
    ensures Moved(w, Look(0), snapshot).pc == Sleeping <==> (snapshot - w.last) % WORD == 0
  {}

  function Dispatched(s: State, steps: nat): State
    requires s.dispatcher.Notifying? && s.dispatcher.i + steps <= |s.workers|
    decreases steps
  {
    if steps == 0 then s else Dispatched(DispatchStep(s), steps - 1)
  }

  /** In a pass the dispatcher is never blocked, and reaches worker i with its (i - j + 1)-st call. */
  lemma {:induction false} PassReaches(s: State, i: nat)
    requires s.dispatcher.Notifying? && s.dispatcher.i <= i < |s.workers|
    ensures var t := Dispatched(s, i - s.dispatcher.i + 1);
            |t.workers| == |s.workers| && t.workers[i] == Notify(s.workers[i])
    decreases i - s.dispatcher.i
  {
    var j, t := s.dispatcher.i, DispatchStep(s);
    if j < i {
      PassReaches(t, i);
    } else {
      assert Dispatched(t, 0) == t;
    }
  }

  // ---------------------------------------------------------------- rest is reached

  /** Every publication made has been handed on, and every worker notified of it. */
  predicate HandedOn(s: State) {
    s.slot.None? && s.dispatcher == Receiving
  }

  /** The dispatcher's calls until then, when there are n workers. */
  function ToHandOn(s: State): nat {
    var n := |s.workers|;
    var more := if s.slot.Some? then n + 3 else 0;
    match s.dispatcher
    case Receiving => more
    case Storing(_) => n + 2 + more
    case Notifying(i) => Less(n, i) + 1 + more
  }

  /** n, brought down by m, but not below zero. */
  function Less(n: nat, m: nat): nat {
    if m < n then n - m else 0
  }

  lemma StepHandsOn(s: State, a: Action)
    requires Enabled(s, a) && !a.Publish?
    ensures HandedOn(s) <==> ToHandOn(s) == 0
    ensures ToHandOn(s) > 0 ==> Enabled(s, Dispatch)
    ensures ToHandOn(Next(s, a)) + (if a.Dispatch? then 1 else 0) == ToHandOn(s)
  {}

  function Dispatches(acts: seq<Action>): nat {
    if acts == [] then 0 else Dispatches(acts[..|acts| - 1]) + if acts[|acts| - 1].Dispatch? then 1 else 0
  }

  lemma BeforeLast(n: nat, acts: seq<Action>, more: seq<Action>, t: State) returns (u: State)
    requires more != [] && After(n, acts + more) == Some(t)
    ensures var a := more[|more| - 1]; After(n, acts + more[..|more| - 1]) == Some(u) && Enabled(u, a) && t == Next(u, a)
  {
    var all := acts + more;
    assert all[..|all| - 1] == acts + more[..|more| - 1];
    u := After(n, all[..|all| - 1]).value;
  }

  /** When publishing stops, the dispatcher has handed on the last publication after 2n + 5 of its own
      calls at most, none of which blocks before. */
  lemma {:induction false} HandsOn(n: nat, acts: seq<Action>, s: State, more: seq<Action>, t: State)
    requires After(n, acts) == Some(s) && After(n, acts + more) == Some(t)
    requires forall j :: 0 <= j < |more| ==> !more[j].Publish?
    ensures ToHandOn(t) + Dispatches(more) == ToHandOn(s) <= 2 * n + 5
    ensures HandedOn(t) <==> Dispatches(more) == ToHandOn(s)
    decreases |more|
  {
    AlwaysSound(n, acts, s);
    if more == [] {
      assert acts + more == acts;
    } else {
      var u := BeforeLast(n, acts, more, t);
      HandsOn(n, acts, s, more[..|more| - 1], u);
      StepHandsOn(u, more[|more| - 1]);
    }
  }

  /** Worker i is with a client, and everything has been handed on. */
  predicate Serving(s: State, i: nat) {
    HandedOn(s) && i < |s.workers| && s.workers[i].pc != Away
  }

  predicate Own(a: Action, i: nat) {
    !a.Publish? && !a.Dispatch? && a.i == i
  }

  /** Nothing is published, and worker i's sends and peeks succeed. */
  predicate Calm(a: Action, i: nat) {
    !a.Publish? && (Own(a, i) && (a.Sent? || a.Peek?) ==> a.ok)
  }

  predicate CalmThroughout(acts: seq<Action>, i: nat) {
    forall j :: 0 <= j < |acts| ==> Calm(acts[j], i)
  }

  function OwnSteps(acts: seq<Action>, i: nat): nat {
    if acts == [] then 0 else OwnSteps(acts[..|acts| - 1], i) + if Own(acts[|acts| - 1], i) then 1 else 0
  }

  /** What a look with this last publication would find. */
  predicate New(snapshot: nat, last: nat) {
    snapshot != 0 && Word(snapshot) != Word(last)
  }

  /** The worker's own steps until its client has been sent what is new. */
  function Behind(w: Worker, snapshot: nat): (n: nat)
    ensures n <= 4
  {
    match w.pc
    case Sending(k) => if New(snapshot, k) then 3 else 1
    case Clearing => if New(snapshot, w.last) then 3 else 0
    case Looking => if New(snapshot, w.last) then 2 else 0
    case Sleeping => if New(snapshot, w.last) then 4 else 0
    case Peeking => if New(snapshot, w.last) then 3 else 0
    case Away => 0
  }

  /** And until it sleeps with no notification. */
  function ToRest(w: Worker, snapshot: nat): (n: nat)
    ensures n <= 7
  {
    var again := if w.notified > 0 then 3 else 0;
    match w.pc
    case Sending(k) => (if New(snapshot, k) then 4 else 2) + again
    case Clearing => if New(snapshot, w.last) then 4 else 2
    case Looking => (if New(snapshot, w.last) then 3 else 1) + again
    case Sleeping => if New(snapshot, w.last) then 5 else again
    case Peeking => (if New(snapshot, w.last) then 4 else 2) + again
    case Away => 0
  }

  /** A worker with a client is never blocked short of rest: this is its next call. */
  function NextCall(w: Worker, i: nat): Action
    requires w.pc != Away
  {
    match w.pc
    case Clearing => Clear(i)
    case Looking => Look(i)
    case Sending(_) => Sent(i, true)
    case Sleeping => Wake(i, false)
    case Peeking => Peek(i, true)
  }

  lemma NeverBlocked(n: nat, acts: seq<Action>, s: State, i: nat)
    requires After(n, acts) == Some(s) && Serving(s, i)
    ensures AtRest(s, i) <==> ToRest(s.workers[i], s.snapshot) == 0
    ensures !AtRest(s, i) ==> Enabled(s, NextCall(s.workers[i], i))
    ensures Own(NextCall(s.workers[i], i), i) && Calm(NextCall(s.workers[i], i), i)
  {
    AlwaysSound(n, acts, s);
    assert Wakeful(s, i);
  }

  /** t is a step of s with worker i still served and nothing new. */
  predicate Continues(s: State, t: State, i: nat) {
    Serving(s, i) && Serving(t, i) && t.snapshot == s.snapshot && t.made == s.made
  }

  lemma StepContinues(s: State, a: Action, i: nat)
    requires Serving(s, i) && Enabled(s, a) && Calm(a, i)
    ensures Continues(s, Next(s, a), i)
    ensures Next(s, a).workers[i] == if Own(a, i) then Moved(s.workers[i], a, s.snapshot) else s.workers[i]
  {}

  /** Each own step of a calm worker brings it nearer, the next to what is new, */
  lemma StepCatchesUp(s: State, a: Action, i: nat)
    requires Serving(s, i) && Enabled(s, a) && Calm(a, i)
    ensures Continues(s, Next(s, a), i)
    ensures Behind(Next(s, a).workers[i], s.snapshot) == Less(Behind(s.workers[i], s.snapshot), if Own(a, i) then 1 else 0)
  {
    StepContinues(s, a, i);
  }

  /** and to rest, as long as it has not come to rest. */
  lemma StepNearsRest(s: State, a: Action, i: nat)
    requires Serving(s, i) && Enabled(s, a) && Calm(a, i) && Wakeful(s, i) && !AtRest(s, i)
    ensures Continues(s, Next(s, a), i)
    ensures ToRest(Next(s, a).workers[i], s.snapshot) + (if Own(a, i) then 1 else 0) == ToRest(s.workers[i], s.snapshot)
  {
    StepContinues(s, a, i);
  }

  lemma {:induction false} CatchesUp(n: nat, acts: seq<Action>, s: State, more: seq<Action>, t: State, i: nat)
    requires After(n, acts) == Some(s) && Serving(s, i) && After(n, acts + more) == Some(t) && CalmThroughout(more, i)
    ensures Continues(s, t, i)
    ensures Behind(t.workers[i], s.snapshot) == Less(Behind(s.workers[i], s.snapshot), OwnSteps(more, i))
    decreases |more|
  {
    if more == [] {
      assert acts + more == acts;
    } else {
      var u := BeforeLast(n, acts, more, t);
      CatchesUp(n, acts, s, more[..|more| - 1], u, i);
      StepCatchesUp(u, more[|more| - 1], i);
    }
  }

  /** Once publishing has stopped and the last publication has been handed on, a worker whose sends and
      peeks succeed has sent its client the newest, modulo 2^32, after four of its own steps at most, and
      for good: whatever else happens, and however often it wakes again. */
  lemma NewestArrives(n: nat, acts: seq<Action>, s: State, more: seq<Action>, t: State, i: nat)
    requires After(n, acts) == Some(s) && Serving(s, i) && After(n, acts + more) == Some(t) && CalmThroughout(more, i)
    requires OwnSteps(more, i) >= 4
    ensures t.made == s.made && i < |t.workers| && t.workers[i].last <= t.made && !t.workers[i].pc.Sending?
    ensures (t.made - t.workers[i].last) % WORD == 0
    ensures t.workers[i].last == t.made <==> t.made - t.workers[i].last < WORD
  {
    CatchesUp(n, acts, s, more, t, i);
    AlwaysSound(n, acts + more, t);
    assert Following(t.workers[i], t.snapshot) && t.snapshot == t.made;
    assert Behind(t.workers[i], t.snapshot) == 0;
    SameSequence(t.made, t.workers[i].last);
  }

  /** Worker i is at rest after acts and some first part of more. */
  predicate Rested(n: nat, acts: seq<Action>, more: seq<Action>, i: nat) {
    || (After(n, acts + more).Some? && AtRest(After(n, acts + more).value, i))
    || (more != [] && Rested(n, acts, more[..|more| - 1], i))
  }

  /** t continues s with worker i so many own steps nearer to rest. */
  predicate NearerRest(s: State, t: State, i: nat, steps: nat) {
    Continues(s, t, i) && ToRest(t.workers[i], s.snapshot) + steps == ToRest(s.workers[i], s.snapshot)
  }

  lemma {:induction false} RestOrNearer(n: nat, acts: seq<Action>, s: State, more: seq<Action>, t: State, i: nat)
    requires After(n, acts) == Some(s) && Serving(s, i) && After(n, acts + more) == Some(t) && CalmThroughout(more, i)
    ensures Rested(n, acts, more, i) || NearerRest(s, t, i, OwnSteps(more, i))
    decreases |more|
  {
    if more == [] {
      assert acts + more == acts;
    } else {
      var first := more[..|more| - 1];
      var u := BeforeLast(n, acts, more, t);
      RestOrNearer(n, acts, s, first, u, i);
      if !Rested(n, acts, first, i) {
        AlwaysSound(n, acts + first, u);
        StepNearsRest(u, more[|more| - 1], i);
      }
    }
  }

  /** And within seven of its own steps it comes to rest. */
  lemma RestArrives(n: nat, acts: seq<Action>, s: State, more: seq<Action>, t: State, i: nat)
    requires After(n, acts) == Some(s) && Serving(s, i) && After(n, acts + more) == Some(t) && CalmThroughout(more, i)
    requires OwnSteps(more, i) >= ToRest(s.workers[i], s.snapshot)
    ensures ToRest(s.workers[i], s.snapshot) <= 7 && Rested(n, acts, more, i)
  {
    RestOrNearer(n, acts, s, more, t, i);
    if NearerRest(s, t, i, OwnSteps(more, i)) {
      NeverBlocked(n, acts + more, t, i);
    }
  }

  lemma Does(n: nat, acts: seq<Action>, s: State, a: Action) returns (more: seq<Action>, t: State)
    requires After(n, acts) == Some(s) && Enabled(s, a)
    ensures more == acts + [a] && After(n, more) == Some(t) && t == Next(s, a)
  {
    more, t := acts + [a], Next(s, a);
    assert more[..|acts|] == acts;
  }

  /** The one worker there is does its next call, and nothing else changes. */
  lemma DoesAlone(acts: seq<Action>, s: State, w: Worker, a: Action, v: Worker) returns (more: seq<Action>, t: State)
    requires After(1, acts) == Some(s) && s.workers == [w] && !a.Publish? && !a.Dispatch? && a.i == 0
    requires Enabled(s, a) && Moved(w, a, s.snapshot) == v
    ensures After(1, more) == Some(t) && t == State(s.made, s.slot, s.snapshot, s.dispatcher, [v])
  {
    more, t := Does(1, acts, s, a);
    assert s.workers[0 := v] == [v];
  }

  lemma Starts() returns (acts: seq<Action>, s: State)
    ensures After(1, acts) == Some(s) && s == State(0, None, 0, Receiving, [Worker(Away, 0, 0, [])])
  {
    acts, s := [], Start(1);
    assert s.workers == [Worker(Away, 0, 0, [])];
  }

  lemma Sleeps() returns (acts: seq<Action>, s: State)
    ensures After(1, acts) == Some(s) && s == State(0, None, 0, Receiving, [Worker(Sleeping, 0, 0, [])])
  {
    acts, s := Starts();
    acts, s := DoesAlone(acts, s, Worker(Away, 0, 0, []), Serve(0), Worker(Clearing, 0, 0, []));
    acts, s := DoesAlone(acts, s, Worker(Clearing, 0, 0, []), Clear(0), Worker(Looking, 0, 0, []));
    acts, s := DoesAlone(acts, s, Worker(Looking, 0, 0, []), Look(0), Worker(Sleeping, 0, 0, []));
  }

  lemma IsNotified() returns (acts: seq<Action>, s: State)
    ensures After(1, acts) == Some(s) && s == State(1, None, 1, Notifying(1), [Worker(Sleeping, 1, 0, [])])
  {
    acts, s := Sleeps();
    acts, s := Does(1, acts, s, Publish);
    acts, s := Does(1, acts, s, Dispatch);
    acts, s := Does(1, acts, s, Dispatch);
    acts, s := Does(1, acts, s, Dispatch);
    assert s.workers == [Worker(Sleeping, 1, 0, [])];
  }

  /** A client that connects and sleeps before the first publication is woken and sent it. */
  lemma FirstIsSent() returns (acts: seq<Action>, s: State)
    ensures After(1, acts) == Some(s) && s.made == 1 && |s.workers| == 1 && s.workers[0].sent == [1]
  {
    acts, s := IsNotified();
    acts, s := DoesAlone(acts, s, Worker(Sleeping, 1, 0, []), Wake(0, false), Worker(Peeking, 0, 0, []));
    acts, s := DoesAlone(acts, s, Worker(Peeking, 0, 0, []), Peek(0, true), Worker(Looking, 0, 0, []));
    acts, s := DoesAlone(acts, s, Worker(Looking, 0, 0, []), Look(0), Worker(Sending(1), 0, 0, []));
    acts, s := DoesAlone(acts, s, Worker(Sending(1), 0, 0, []), Sent(0, true), Worker(Looking, 0, 1, [1]));
  }

  // ---------------------------------------------------------------- the tasks' code

  datatype Publication = Publication(sequence: nat, data: seq<byte>)

  /** The snapshot and the workers' notification counts, and the code that works on them, call by call.
      `pubs` is every publication made; the k-th is pubs[k - 1]. */
  class Hub {
    var latest: Option<Publication>
    const notified: array<nat>
    ghost var model: State
    ghost var pubs: seq<Publication>

    ghost predicate Valid()
      reads this, notified
    {
      && Sound(model) && model.made == |pubs|
      && (forall k :: 0 <= k < |pubs| ==> pubs[k].sequence == Word(k + 1))
      && latest == (if model.snapshot == 0 then None else Some(pubs[model.snapshot - 1]))
      && Counts()
    }

    ghost predicate Counts()
      reads this, notified
    {
      notified.Length == |model.workers| && forall i :: 0 <= i < notified.Length ==> notified[i] == model.workers[i].notified
    }

    constructor (n: nat)
      ensures Valid() && model == Start(n) && pubs == [] && fresh(notified)
    {
      latest := None;
      notified := new nat[n](_ => 0);
      model := Start(n);
      pubs := [];
    }

    /** latest_publication_copy_if_new: newness is a comparison of sequence numbers. */
    method CopyIfNew(ghost i: nat, lastSequence: nat) returns (copy: Option<Publication>)
      requires Valid() && At(model, i, Looking) && lastSequence == Word(model.workers[i].last)
      modifies this`model
      ensures Valid() && model == Next(old(model), Look(i)) && i < |model.workers|
      ensures copy == if model.workers[i].pc.Sending? then Some(pubs[model.snapshot - 1]) else None
      ensures model.workers[i].pc == if copy.Some? then Sending(model.snapshot) else Sleeping
    {
      NextIsSound(model, Look(i));
      model := Next(model, Look(i));
      copy := if latest.Some? && latest.value.sequence != lastSequence then latest else None;
    }

    /** One pass of stream_response_send's loop, undisturbed: sends what is new, or waits and peeks.
        It is called with a notification pending when there is nothing new and no timeout. */
    method ResponseTurn(i: nat, lastSequence: nat, sendOk: bool, timeout: bool, peekOk: bool)
        returns (last: nat, sent: Option<Publication>, gone: bool)
      requires Valid() && At(model, i, Looking) && lastSequence == Word(model.workers[i].last)
      requires (model.snapshot == 0 || Word(model.snapshot) == lastSequence) ==> timeout || notified[i] > 0
      modifies this`model, notified
      ensures Valid() && i < |model.workers| && model.snapshot == old(model.snapshot)
      ensures sent.Some? <==> sendOk && model.snapshot != 0 && Word(model.snapshot) != lastSequence
      ensures sent.Some? ==> sent == latest && model.workers[i].sent == old(model.workers[i].sent) + [model.snapshot]
      ensures sent.None? ==> model.workers[i].sent == old(model.workers[i].sent)
      ensures !gone ==> At(model, i, Looking) && last == Word(model.workers[i].last)
      ensures gone ==> At(model, i, Away)
    {
      last, sent, gone := lastSequence, None, false;
      var copy := CopyIfNew(i, lastSequence);
      if copy.Some? {
        gone := !sendOk;
        Step(Sent(i, sendOk), i);
        if sendOk {
          sent := copy;
          last := copy.value.sequence;
        }
        return;
      }
      Step(Wake(i, timeout), i);
      notified[i] := 0;
      gone := !peekOk;
      Step(Peek(i, peekOk), i);
    }

    /** A step of the model that the fields, up to the count of worker i, already show. */
    ghost method Step(a: Action, i: nat)
      requires Sound(model) && Enabled(model, a) && i < |model.workers|
      requires (a.Sent? || a.Wake? || a.Peek?) && a.i == i
      modifies this`model
      ensures model == Next(old(model), a) && Sound(model) && |model.workers| == |old(model).workers|
    {
      NextIsSound(model, a);
      model := Next(model, a);
    }

    /** The snapshot section of http_stack_task. */
    method StoreLatest(p: Publication)
      requires Valid() && model.dispatcher.Storing? && 0 < model.dispatcher.k && p == pubs[model.dispatcher.k - 1]
      modifies this`latest, this`model
      ensures Valid() && model == DispatchStep(old(model)) && latest == Some(p)
    {
      DispatchIsSound(model);
      latest := Some(p);
      model := DispatchStep(model);
    }

    /** xTaskNotifyGive to worker i. */
    method NotifyGive(i: nat)
      requires Valid() && model.dispatcher == Notifying(i) && i < notified.Length
      modifies this`model, notified
      ensures Valid() && model == DispatchStep(old(model))
      ensures forall j :: 0 <= j < notified.Length ==> notified[j] == old(notified[j]) + if j == i then 1 else 0
    {
      DispatchIsSound(model);
      notified[i] := notified[i] + 1;
      model := DispatchStep(model);
    }

    /** One pass of http_stack_task with the publication received: the snapshot first, then every
        worker's notification. */
    method StackTaskPass(p: Publication)
      requires Valid() && model.dispatcher.Storing? && 0 < model.dispatcher.k && p == pubs[model.dispatcher.k - 1]
      modifies this`latest, this`model, notified
      ensures Valid() && model.dispatcher == Receiving && latest == Some(p) && model.snapshot == old(model.dispatcher.k)
      ensures forall i :: 0 <= i < notified.Length ==> notified[i] == old(notified[i]) + 1
    {
      StoreLatest(p);
      for index := 0 to notified.Length
        invariant Valid() && model.dispatcher == Notifying(index)
        invariant latest == Some(p) && model.snapshot == old(model.dispatcher.k)
        invariant forall i :: 0 <= i < notified.Length ==> notified[i] == old(notified[i]) + if i < index then 1 else 0
      {
        NotifyGive(index);
      }
      DispatchIsSound(model);
      model := DispatchStep(model);
    }
  }
}
