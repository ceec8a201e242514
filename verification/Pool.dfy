/** The bounded worker pools of main/http_stream.c, main/log_stream.c and main/ota_update.c: a
    semaphore that counts the workers waiting, a queue as long as there are workers, and requests
    detached from the server that somebody must complete. One step is one kernel or server call, and
    any number of handlers and workers interleave. */
module Pool {
  import opened Nmea

  /** /write, /log and /flash take the permit before detaching the request; /stream and /view after. */
  datatype Style = PermitFirst | BeginFirst

  datatype Handler = Idle | Permit | Copy(r: nat) | Both(r: nat) | Rejected(r: nat)

  datatype Worker = Giving | Waiting | Serving(r: nat)

  /** Requests are numbered in the order they are begun; `completed` counts their completions. */
  datatype State = State(style: Style, permits: nat, queue: seq<nat>, handlers: seq<Handler>, workers: seq<Worker>,
                         begun: nat, completed: multiset<nat>)

  datatype Action =
    | Arrive(h: nat, ok: bool)    // the first of the two: permit, or request (ok: the server can detach it)
    | Proceed(h: nat, ok: bool)   // the second
    | Send(h: nat)
    | Drop(h: nat)
    | Give(w: nat)
    | Receive(w: nat)
    | Complete(w: nat)

  predicate Enabled(s: State, a: Action) {
    match a
    case Arrive(h, _) => h < |s.handlers| && s.handlers[h] == Idle
    case Proceed(h, _) => h < |s.handlers| && (s.handlers[h] == Permit || s.handlers[h].Copy?)
    case Send(h) => h < |s.handlers| && s.handlers[h].Both?
    case Drop(h) => h < |s.handlers| && s.handlers[h].Rejected?
    case Give(w) => w < |s.workers| && s.workers[w] == Giving
    case Receive(w) => w < |s.workers| && s.workers[w] == Waiting && s.queue != []
    case Complete(w) => w < |s.workers| && s.workers[w].Serving?
  }

  /** A counting semaphore and a queue, both as large as the pool. */
  function Given(s: State): nat {
    if s.permits < |s.workers| then s.permits + 1 else s.permits
  }

  predicate Room(s: State) {
    |s.queue| < |s.workers|
  }

  function Next(s: State, a: Action): State
    requires Enabled(s, a)
  {
    match a
    case Arrive(h, ok) => if s.style == PermitFirst then TakeFirst(s, h) else BeginNext(s, h, ok, Idle)
    case Proceed(h, ok) => if s.handlers[h] == Permit then BeginNext(s, h, ok, Permit) else TakeNext(s, h)
    case Send(h) =>
      var r, fits := s.handlers[h].r, Room(s);
      s.(queue := if fits then s.queue + [r] else s.queue, permits := if fits then s.permits else Given(s),
         handlers := s.handlers[h := if fits then Idle else Rejected(r)])
    case Drop(h) => s.(completed := s.completed + multiset{s.handlers[h].r}, handlers := s.handlers[h := Idle])
    case Give(w) => s.(permits := Given(s), workers := s.workers[w := Waiting])
    case Receive(w) => s.(queue := s.queue[1..], workers := s.workers[w := Serving(s.queue[0])])
    case Complete(w) => s.(completed := s.completed + multiset{s.workers[w].r}, workers := s.workers[w := Giving])
  }

  function TakeFirst(s: State, h: nat): State
    requires h < |s.handlers|
  {
    s.(permits := if s.permits > 0 then s.permits - 1 else 0,
       handlers := s.handlers[h := if s.permits > 0 then Permit else Idle])
  }

  /** The permit, for a request already detached: without one it goes back to the server. */
  function TakeNext(s: State, h: nat): State
    requires h < |s.handlers| && s.handlers[h].Copy?
  {
    var r := s.handlers[h].r;
    s.(permits := if s.permits > 0 then s.permits - 1 else 0,
       handlers := s.handlers[h := if s.permits > 0 then Both(r) else Rejected(r)])
  }

  /** httpd_req_async_handler_begin; a failure gives a permit back. */
  function BeginNext(s: State, h: nat, ok: bool, from: Handler): State
    requires h < |s.handlers|
  {
    s.(begun := if ok then s.begun + 1 else s.begun,
       permits := if !ok && from == Permit then Given(s) else s.permits,
       handlers := s.handlers[h := if !ok then Idle else if from == Permit then Both(s.begun) else Copy(s.begun)])
  }

  // ---------------------------------------------------------------- permits

  function HasPermit(h: Handler): nat {
    if h == Permit || h.Both? then 1 else 0
  }

  function Held(hs: seq<Handler>): nat {
    if hs == [] then 0 else Held(hs[..|hs| - 1]) + HasPermit(hs[|hs| - 1])
  }

  function IsWaiting(w: Worker): nat {
    if w == Waiting then 1 else 0
  }

  function IsServing(w: Worker): nat {
    if w.Serving? then 1 else 0
  }

  function Idlers(ws: seq<Worker>): nat {
    if ws == [] then 0 else Idlers(ws[..|ws| - 1]) + IsWaiting(ws[|ws| - 1])
  }

  function ServingCount(ws: seq<Worker>): nat {
    if ws == [] then 0 else ServingCount(ws[..|ws| - 1]) + IsServing(ws[|ws| - 1])
  }

  lemma {:induction false} HeldUpdate(hs: seq<Handler>, i: nat, h: Handler)
    requires i < |hs|
    ensures Held(hs[i := h]) + HasPermit(hs[i]) == Held(hs) + HasPermit(h)
  {
    var n := |hs| - 1;
    if i < n {
      HeldUpdate(hs[..n], i, h);
      assert hs[i := h][..n] == hs[..n][i := h];
    } else {
      assert hs[i := h][..n] == hs[..n];
    }
  }

  lemma {:induction false} WorkerUpdate(ws: seq<Worker>, i: nat, w: Worker)
    requires i < |ws|
    ensures Idlers(ws[i := w]) + IsWaiting(ws[i]) == Idlers(ws) + IsWaiting(w)
    ensures ServingCount(ws[i := w]) + IsServing(ws[i]) == ServingCount(ws) + IsServing(w)
  {
    var n := |ws| - 1;
    if i < n {
      WorkerUpdate(ws[..n], i, w);
      assert ws[i := w][..n] == ws[..n][i := w];
    } else {
      assert ws[i := w][..n] == ws[..n];
    }
  }

  lemma {:induction false} WorkersBound(ws: seq<Worker>)
    ensures Idlers(ws) + ServingCount(ws) <= |ws|
    ensures (exists i :: 0 <= i < |ws| && ws[i] == Giving) ==> Idlers(ws) + ServingCount(ws) < |ws|
  {
    if ws == [] {
    } else {
      WorkersBound(ws[..|ws| - 1]);
      forall i | 0 <= i < |ws| && ws[i] == Giving ensures Idlers(ws) + ServingCount(ws) < |ws| {
        if i < |ws| - 1 { assert ws[..|ws| - 1][i] == Giving; }
      }
    }
  }

  lemma {:induction false} HeldBy(hs: seq<Handler>, i: nat)
    requires i < |hs|
    ensures HasPermit(hs[i]) <= Held(hs)
  {
    if i >= |hs| - 1 {
    } else {
      HeldBy(hs[..|hs| - 1], i);
    }
  }

  /** Every waiting worker is answered for by a permit: in the semaphore, in a handler's hand, or spent
      on a queued request. */
  predicate Conserved(s: State) {
    s.permits + Held(s.handlers) + |s.queue| == Idlers(s.workers)
  }

  // ---------------------------------------------------------------- ownership

  function HandlerOwns(h: Handler, r: nat): nat {
    if (h.Copy? || h.Both? || h.Rejected?) && h.r == r then 1 else 0
  }

  function WorkerOwns(w: Worker, r: nat): nat {
    if w == Serving(r) then 1 else 0
  }

  function HandlersOwn(hs: seq<Handler>, r: nat): nat {
    if hs == [] then 0 else HandlersOwn(hs[..|hs| - 1], r) + HandlerOwns(hs[|hs| - 1], r)
  }

  function WorkersOwn(ws: seq<Worker>, r: nat): nat {
    if ws == [] then 0 else WorkersOwn(ws[..|ws| - 1], r) + WorkerOwns(ws[|ws| - 1], r)
  }

  lemma {:induction false} HandlersOwnUpdate(hs: seq<Handler>, i: nat, h: Handler, r: nat)
    requires i < |hs|
    ensures HandlersOwn(hs[i := h], r) + HandlerOwns(hs[i], r) == HandlersOwn(hs, r) + HandlerOwns(h, r)
  {
    var n := |hs| - 1;
    if i < n {
      HandlersOwnUpdate(hs[..n], i, h, r);
      assert hs[i := h][..n] == hs[..n][i := h];
    } else {
      assert hs[i := h][..n] == hs[..n];
    }
  }

  lemma {:induction false} WorkersOwnUpdate(ws: seq<Worker>, i: nat, w: Worker, r: nat)
    requires i < |ws|
    ensures WorkersOwn(ws[i := w], r) + WorkerOwns(ws[i], r) == WorkersOwn(ws, r) + WorkerOwns(w, r)
  {
    var n := |ws| - 1;
    if i < n {
      WorkersOwnUpdate(ws[..n], i, w, r);
      assert ws[i := w][..n] == ws[..n][i := w];
    } else {
      assert ws[i := w][..n] == ws[..n];
    }
  }

  /** In how many places request r is: with a handler, in the queue, with a worker, or completed. */
  function Places(s: State, r: nat): nat {
    HandlersOwn(s.handlers, r) + multiset(s.queue)[r] + WorkersOwn(s.workers, r) + s.completed[r]
  }

  function Once(s: State, r: nat): nat {
    if r < s.begun then 1 else 0
  }

  /** Each begun request is in exactly one place, once. */
  ghost predicate Owned(s: State) {
    forall r: nat :: Places(s, r) == Once(s, r)
  }

  // ---------------------------------------------------------------- preservation

  predicate OfHandler(a: Action) {
    a.Arrive? || a.Proceed? || a.Send? || a.Drop?
  }

  /** A step changes one handler or one worker. */
  lemma OneMoves(s: State, a: Action)
    requires Enabled(s, a)
    ensures var t := Next(s, a);
            if OfHandler(a) then t.workers == s.workers && a.h < |t.handlers| && t.handlers == s.handlers[a.h := t.handlers[a.h]]
            else t.handlers == s.handlers && a.w < |t.workers| && t.workers == s.workers[a.w := t.workers[a.w]]
  {}

  lemma NextConserves(s: State, a: Action)
    requires Conserved(s) && Enabled(s, a)
    ensures Conserved(Next(s, a))
    ensures a.Send? ==> Room(s)
    ensures a.Give? || (a.Proceed? && s.handlers[a.h] == Permit) ==> s.permits < |s.workers|
  {
    WorkersBound(s.workers);
    OneMoves(s, a);
    if OfHandler(a) {
      HeldBy(s.handlers, a.h);
      HeldUpdate(s.handlers, a.h, Next(s, a).handlers[a.h]);
    } else {
      WorkerUpdate(s.workers, a.w, Next(s, a).workers[a.w]);
    }
  }

  lemma QueueCount(q: seq<nat>, x: nat, r: nat)
    ensures multiset(q + [x])[r] == multiset(q)[r] + if x == r then 1 else 0
    ensures multiset([x] + q)[r] == multiset(q)[r] + if x == r then 1 else 0
  {}

  lemma NextKeepsPlaces(s: State, a: Action, r: nat)
    requires Enabled(s, a)
    ensures Places(Next(s, a), r) + Once(s, r) == Places(s, r) + Once(Next(s, a), r)
  {
    OneMoves(s, a);
    if OfHandler(a) {
      HandlersOwnUpdate(s.handlers, a.h, Next(s, a).handlers[a.h], r);
      HandlerMoves(s, a, r);
    } else {
      WorkersOwnUpdate(s.workers, a.w, Next(s, a).workers[a.w], r);
      WorkerMoves(s, a, r);
    }
  }

  function Elsewhere(s: State, r: nat): nat {
    multiset(s.queue)[r] + s.completed[r]
  }

  /** What the moving handler gains or loses, the queue, the server or the number line does. */
  lemma HandlerMoves(s: State, a: Action, r: nat)
    requires Enabled(s, a) && OfHandler(a) && a.h < |Next(s, a).handlers|
    ensures var t := Next(s, a);
            HandlerOwns(t.handlers[a.h], r) + Elsewhere(t, r) + Once(s, r)
            == HandlerOwns(s.handlers[a.h], r) + Elsewhere(s, r) + Once(t, r)
  {}

  lemma WorkerMoves(s: State, a: Action, r: nat)
    requires Enabled(s, a) && !OfHandler(a) && a.w < |Next(s, a).workers|
    ensures var t := Next(s, a);
            WorkerOwns(t.workers[a.w], r) + Elsewhere(t, r) + Once(s, r)
            == WorkerOwns(s.workers[a.w], r) + Elsewhere(s, r) + Once(t, r)
  {
    if a.Receive? {
      QueueCount(s.queue[1..], s.queue[0], r);
      assert s.queue == [s.queue[0]] + s.queue[1..];
    }
  }

  // ---------------------------------------------------------------- runs

  /** A pool just created: every worker about to offer its permit, any number of handlers idle. */
  predicate Fresh(s: State) {
    && s.permits == 0 && s.queue == [] && s.begun == 0 && s.completed == multiset{}
    && (forall i :: 0 <= i < |s.workers| ==> s.workers[i] == Giving)
    && (forall i :: 0 <= i < |s.handlers| ==> s.handlers[i] == Idle)
  }

  function After(start: State, acts: seq<Action>): Option<State> {
    if acts == [] then Some(start)
    else
      var p, a := After(start, acts[..|acts| - 1]), acts[|acts| - 1];
      if p.Some? && Enabled(p.value, a) then Some(Next(p.value, a)) else None
  }

  lemma {:induction false} NobodyOwns(hs: seq<Handler>, ws: seq<Worker>, r: nat)
    requires forall i :: 0 <= i < |ws| ==> ws[i] == Giving
    requires forall i :: 0 <= i < |hs| ==> hs[i] == Idle
    ensures HandlersOwn(hs, r) == WorkersOwn(ws, r) == 0 && Held(hs) == Idlers(ws) == 0
    decreases |hs| + |ws|
  {
    if hs != [] {
      NobodyOwns(hs[..|hs| - 1], ws, r);
    } else if ws != [] {
      NobodyOwns(hs, ws[..|ws| - 1], r);
    }
  }

  lemma {:induction false} AlwaysSound(start: State, acts: seq<Action>, s: State)
    requires Fresh(start) && After(start, acts) == Some(s)
    ensures Conserved(s) && Owned(s) && |s.workers| == |start.workers| && s.style == start.style
  {
    if acts == [] {
      forall r: nat ensures Places(s, r) == 0 {
        NobodyOwns(s.handlers, s.workers, r);
      }
      NobodyOwns(s.handlers, s.workers, 0);
    } else {
      var p, a := After(start, acts[..|acts| - 1]).value, acts[|acts| - 1];
      AlwaysSound(start, acts[..|acts| - 1], p);
      NextIsSound(p, a);
    }
  }

  lemma NextIsSound(s: State, a: Action)
    requires Conserved(s) && Owned(s) && Enabled(s, a)
    ensures var t := Next(s, a); Conserved(t) && Owned(t) && |t.workers| == |s.workers| && t.style == s.style
  {
    NextConserves(s, a);
    OneMoves(s, a);
    var t := Next(s, a);
    forall r: nat ensures Places(t, r) == Once(t, r) {
      NextKeepsPlaces(s, a, r);
    }
  }

  /** In every run of a pool of n workers: the permits are conserved, at most n requests are accepted
      and unfinished, a send after a permit finds room, and a give never finds the semaphore full. */
  lemma PoolIsBounded(start: State, acts: seq<Action>, s: State, a: Action)
    requires Fresh(start) && After(start, acts) == Some(s) && Enabled(s, a)
    ensures s.permits + Held(s.handlers) + |s.queue| == Idlers(s.workers)
    ensures |s.queue| + ServingCount(s.workers) <= |start.workers|
    ensures a.Send? ==> |s.queue| < |start.workers|
    ensures a.Give? || (a.Proceed? && s.handlers[a.h] == Permit) ==> s.permits < |start.workers|
  {
    AlwaysSound(start, acts, s);
    NextConserves(s, a);
    WorkersBound(s.workers);
  }

  /** In every run each begun request is with one handler, in the queue once, with one worker, or
      completed once, and exactly one of these; nothing else is anywhere. */
  lemma RequestsAreOwned(start: State, acts: seq<Action>, s: State, r: nat)
    requires Fresh(start) && After(start, acts) == Some(s)
    ensures HandlersOwn(s.handlers, r) + multiset(s.queue)[r] + WorkersOwn(s.workers, r) + s.completed[r]
            == if r < s.begun then 1 else 0
  {
    AlwaysSound(start, acts, s);
    assert Places(s, r) == Once(s, r);
  }

  /** When no handler is under way, nothing is queued and no worker is serving, every request begun has
      been completed, exactly once: nothing is detached and forgotten. */
  lemma IdlePoolHasFinished(start: State, acts: seq<Action>, s: State, r: nat)
    requires Fresh(start) && After(start, acts) == Some(s) && r < s.begun
    requires forall i :: 0 <= i < |s.handlers| ==> s.handlers[i] == Idle
    requires s.queue == [] && forall i :: 0 <= i < |s.workers| ==> !s.workers[i].Serving?
    ensures s.completed[r] == 1
  {
    RequestsAreOwned(start, acts, s, r);
    NoneOwned(s.handlers, s.workers, r);
  }

  lemma {:induction false} NoneOwned(hs: seq<Handler>, ws: seq<Worker>, r: nat)
    requires forall i :: 0 <= i < |hs| ==> hs[i] == Idle
    requires forall i :: 0 <= i < |ws| ==> !ws[i].Serving?
    ensures HandlersOwn(hs, r) == WorkersOwn(ws, r) == 0
    decreases |hs| + |ws|
  {
    if hs != [] {
      NoneOwned(hs[..|hs| - 1], ws, r);
    } else if ws != [] {
      NoneOwned(hs, ws[..|ws| - 1], r);
    }
  }

  lemma {:induction false} SomeoneWaits(ws: seq<Worker>) returns (w: nat)
    requires Idlers(ws) > 0
    ensures w < |ws| && ws[w] == Waiting
  {
    if ws[|ws| - 1] == Waiting {
      w := |ws| - 1;
    } else {
      w := SomeoneWaits(ws[..|ws| - 1]);
    }
  }

  /** For every queued request a worker waits, which can take it at once. */
  lemma QueuedIsTaken(start: State, acts: seq<Action>, s: State) returns (w: nat)
    requires Fresh(start) && After(start, acts) == Some(s) && s.queue != []
    ensures Enabled(s, Receive(w)) && Next(s, Receive(w)).workers[w] == Serving(s.queue[0])
  {
    AlwaysSound(start, acts, s);
    w := SomeoneWaits(s.workers);
  }

  lemma Does(start: State, acts: seq<Action>, s: State, a: Action) returns (more: seq<Action>, t: State)
    requires After(start, acts) == Some(s) && Enabled(s, a)
    ensures more == acts + [a] && After(start, more) == Some(t) && t == Next(s, a)
  {
    more, t := acts + [a], Next(s, a);
    assert more[..|acts|] == acts;
  }

  /** In a pool of either style a request that is accepted is served and completed, and the worker offers its
      permit again. */
  lemma RequestIsServed(style: Style) returns (start: State, acts: seq<Action>, s: State)
    ensures Fresh(start) && start.style == style && After(start, acts) == Some(s)
    ensures s.begun == 1 && s.completed[0] == 1 && s.permits == 1 && s.queue == []
  {
    start := State(style, 0, [], [Idle], [Giving], 0, multiset{});
    acts, s := [], start;
    acts, s := Does(start, acts, s, Give(0));
    acts, s := Does(start, acts, s, Arrive(0, true));
    acts, s := Does(start, acts, s, Proceed(0, true));
    acts, s := Does(start, acts, s, Send(0));
    acts, s := Does(start, acts, s, Receive(0));
    acts, s := Does(start, acts, s, Complete(0));
    acts, s := Does(start, acts, s, Give(0));
  }

  // ---------------------------------------------------------------- the handlers' code

  /** A pool's semaphore and queue, and the functions that work on them, undisturbed. */
  class Slots {
    const capacity: nat
    var permits: nat
    var queue: seq<nat>
    /** Supplies the detached copies of requests. */
    var begun: nat
    ghost var model: State

    ghost predicate Valid()
      reads this
    {
      && permits == model.permits && queue == model.queue && begun == model.begun && capacity == |model.workers|
      && Conserved(model)
    }

    constructor (style: Style, capacity: nat, ghost handlers: nat)
      ensures Valid() && Fresh(model) && model.style == style && |model.workers| == capacity && |model.handlers| == handlers
    {
      this.capacity, permits, queue, begun := capacity, 0, [], 0;
      model := State(style, 0, [], seq(handlers, _ => Idle), seq(capacity, _ => Giving), 0, multiset{});
      new;
      NobodyOwns(model.handlers, model.workers, 0);
    }

    /** stream_request_queue: detaches first. Refused for want of a permit, the copy is completed. */
    method StreamRequestQueue(ghost h: nat, begins: bool) returns (queued: bool)
      requires Valid() && model.style == BeginFirst && Enabled(model, Arrive(h, begins))
      modifies this`permits, this`queue, this`begun, this`model
      ensures Valid() && (queued <==> begins && old(permits) > 0)
      ensures model.handlers == old(model).handlers && model.workers == old(model).workers
      ensures queued ==> queue == old(queue) + [old(begun)] && permits == old(permits) - 1 && begun == old(begun) + 1
      ensures !queued ==> queue == old(queue) && permits == old(permits)
      ensures model.completed == old(model).completed + if begins && !queued then multiset{old(begun)} else multiset{}
    {
      ghost var hs := model.handlers;
      Advance(Arrive(h, begins));
      if !begins {
        assert model.handlers == hs;
        return false;
      }
      var copy := begun;
      begun := begun + 1;
      Advance(Proceed(h, true));
      if permits == 0 {
        Advance(Drop(h));
        assert model.handlers == hs;
        return false;
      }
      permits := permits - 1;
      queued := QueueSend(h, copy);
      assert model.handlers == hs;
    }

    /** write_request_queue, log_request_queue and ota_request_queue: the permit first. */
    method ExclusiveRequestQueue(ghost h: nat, begins: bool) returns (queued: bool)
      requires Valid() && model.style == PermitFirst && Enabled(model, Arrive(h, begins))
      modifies this`permits, this`queue, this`begun, this`model
      ensures Valid() && (queued <==> begins && old(permits) > 0)
      ensures model.handlers == old(model).handlers && model.workers == old(model).workers
      ensures queued ==> queue == old(queue) + [old(begun)] && permits == old(permits) - 1 && begun == old(begun) + 1
      ensures !queued ==> queue == old(queue) && permits == old(permits) && begun == old(begun)
      ensures model.completed == old(model).completed
    {
      ghost var hs := model.handlers;
      Advance(Arrive(h, begins));
      if permits == 0 {
        assert model.handlers == hs;
        return false;
      }
      permits := permits - 1;
      Advance(Proceed(h, begins));
      if !begins {
        permits := permits + 1;
        assert model.handlers == hs;
        return false;
      }
      var copy := begun;
      begun := begun + 1;
      queued := QueueSend(h, copy);
      assert model.handlers == hs;
    }

    ghost method Advance(a: Action)
      requires Enabled(model, a) && Conserved(model)
      modifies this`model
      ensures model == Next(old(model), a) && Conserved(model) && |model.workers| == |old(model).workers|
      ensures a.Send? ==> Room(old(model))
      ensures a.Proceed? && old(model).handlers[a.h] == Permit ==> old(model).permits < |old(model).workers|
    {
      NextConserves(model, a);
      OneMoves(model, a);
      model := Next(model, a);
    }

    /** xQueueSend with a permit in hand: the code's branch for a full queue is dead. */
    method QueueSend(ghost h: nat, copy: nat) returns (queued: bool)
      requires Valid() && Enabled(model, Send(h)) && model.handlers[h].r == copy
      modifies this`queue, this`permits, this`model
      ensures Valid() && queued && permits == old(permits)
      ensures model == old(model).(queue := old(queue) + [copy], handlers := old(model).handlers[h := Idle])
    {
      Advance(Send(h));
      queued := |queue| < capacity;
      if queued {
        queue := queue + [copy];
      } else {
        // the branch that gives the permit back and completes the copy
        assert false;
      }
    }
  }
}
