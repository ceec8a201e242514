/** The log tail of main/log_stream.c: a 4096-byte ring with a 32-bit running total, and the client
    cursor that follows it, against the unbounded log they abbreviate. */
module LogRing {
  import opened Nmea
  import opened Basics

  const RING := 4096
  const LINE_MAX := 256
  const CHUNK := 512

  // ---------------------------------------------------------------- positions

  function Max(a: int, b: int): int {
    if a > b then a else b
  }

  function Slot(i: nat): (k: nat)
    ensures k < RING
  {
    i % RING
  }

  /** The ring's size divides the word, so the wrapped counters name the slots of the true positions. */
  lemma SlotOfWord(n: nat, k: nat)
    ensures Slot(Word(Word(n) + k)) == Slot(n + k)
  {}

  /** Positions less than a ring apart have different slots. */
  lemma SlotsDiffer(i: nat, n: nat)
    requires i < n < i + RING
    ensures Slot(i) != Slot(n)
  {}

  lemma WordOfSum(n: nat, k: nat)
    ensures Word(Word(n) + k) == Word(n + k)
  {}

  lemma WordOfDifference(n: nat, m: nat)
    requires m <= n
    ensures Word(Word(n) - Word(m)) == Word(n - m)
  {}

  // ---------------------------------------------------------------- where a client reads

  /** Where a client that stands at pos reads on, when total bytes have been logged: the cursor sees
      its lag modulo 2^32. */
  function ReadFrom(total: nat, pos: nat): (lo: nat)
    requires pos <= total
    ensures pos <= lo <= total <= lo + RING
  {
    total - Min(Word(total - pos), RING)
  }

  /** It misses exactly the overwritten bytes if and only if its lag is below 2^32 or, by luck, the
      wrapped lag is a ring or more. */
  lemma StartExact(total: nat, pos: nat)
    requires pos <= total
    ensures ReadFrom(total, pos) == Max(pos, total - RING) <==> total - pos < WORD || Word(total - pos) >= RING
  {}

  /** Where a new client starts. */
  function ConnectAt(total: nat): (pos: nat)
    ensures pos <= total <= pos + RING
  {
    if Word(total) > RING then total - RING else total - Word(total)
  }

  /** Always a byte that survives, and the oldest one except just after the counter has wrapped. */
  lemma ConnectExact(total: nat)
    ensures ConnectAt(total) == Max(0, total - RING) <==> !(total >= WORD && Word(total) < RING)
  {}

  // ---------------------------------------------------------------- a session

  /** Another task logs (None when formatting fails), or the worker takes a turn of its loop; ok is
      whether the send, or the peek when there is nothing to send, found the client connected. */
  datatype Event = Logs(text: Option<string>) | Turn(ok: bool)

  /** What of a formatted text reaches the ring. */
  function Captured(text: Option<string>): string {
    if text.None? then "" else text.value[..Min(|text.value|, LINE_MAX - 1)]
  }

  function LoggedBy(e: Event): string {
    if e.Logs? then Captured(e.text) else ""
  }

  function Logged(events: seq<Event>): string {
    if events == [] then ""
    else LoggedBy(events[0]) + Logged(events[1..])
  }

  /** A chunk sent: log[lo..hi], when total bytes had been logged. */
  datatype Span = Span(lo: nat, hi: nat, total: nat)

  function Chunk(total: nat, pos: nat): Span
    requires pos <= total
  {
    var lo := ReadFrom(total, pos);
    Span(lo, Min(total, lo + CHUNK), total)
  }

  /** The chunks a client at pos is sent. */
  function Session(total: nat, pos: nat, events: seq<Event>): (s: seq<Span>)
    requires pos <= total
    ensures forall k :: 0 <= k < |s| ==> s[k].lo < s[k].hi <= total + |Logged(events)|
    decreases |events|
  {
    if events == [] then []
    else
      match events[0]
      case Logs(text) => Session(total + |Captured(text)|, pos, events[1..])
      case Turn(ok) =>
        var c := Chunk(total, pos);
        if !ok then []
        else if c.lo < c.hi then [c] + Session(total, c.hi, events[1..])
        else Session(total, pos, events[1..])
  }

  function Sent(log: string, spans: seq<Span>): string
    requires forall k :: 0 <= k < |spans| ==> spans[k].lo <= spans[k].hi <= |log|
  {
    if spans == [] then "" else log[spans[0].lo..spans[0].hi] + Sent(log, spans[1..])
  }

  /** What a client at pos is sent, as a part of the full log. */
  function Due(full: string, total: nat, pos: nat, events: seq<Event>): string
    requires pos <= total && total + |Logged(events)| <= |full|
  {
    Sent(full, Session(total, pos, events))
  }

  function PositionBefore(pos: nat, spans: seq<Span>, k: nat): nat
    requires k <= |spans|
  {
    if k == 0 then pos else spans[k - 1].hi
  }

  lemma LoggedFirst(events: seq<Event>)
    requires events != []
    ensures |Logged(events)| == |LoggedBy(events[0])| + |Logged(events[1..])|
  {}

  /** The k-th chunk starts at or after the end of the one before, is not empty and not too large, and was in
      the ring, of whose client's position it is the chunk. */
  predicate OrderedAt(pos: nat, s: seq<Span>, k: nat, most: nat) {
    && k < |s| && PositionBefore(pos, s, k) <= s[k].lo < s[k].hi <= s[k].total <= most
    && s[k].hi - s[k].lo <= CHUNK && s[k].total - s[k].lo <= RING
    && PositionBefore(pos, s, k) <= s[k].total && s[k] == Chunk(s[k].total, PositionBefore(pos, s, k))
  }

  lemma OrderedLater(pos: nat, c: Span, rest: seq<Span>, k: nat, most: nat)
    requires k > 0 && OrderedAt(c.hi, rest, k - 1, most)
    ensures OrderedAt(pos, [c] + rest, k, most)
  {
    assert PositionBefore(pos, [c] + rest, k) == PositionBefore(c.hi, rest, k - 1);
  }

  lemma {:induction false} ChunksOrdered(total: nat, pos: nat, events: seq<Event>, k: nat)
    requires pos <= total && k < |Session(total, pos, events)|
    ensures OrderedAt(pos, Session(total, pos, events), k, total + |Logged(events)|)
    decreases |events|
  {
    LoggedFirst(events);
    var rest := events[1..];
    match events[0]
    case Logs(text) => ChunksOrdered(total + |Captured(text)|, pos, rest, k);
    case Turn(ok) =>
      var c := Chunk(total, pos);
      if c.lo == c.hi {
        ChunksOrdered(total, pos, rest, k);
      } else if k > 0 {
        ChunksOrdered(total, c.hi, rest, k - 1);
        OrderedLater(pos, c, Session(total, c.hi, rest), k, total + |Logged(events)|);
      }
  }

  /** Chunks come in order, none is empty, none overlaps another, and each was in the ring when it was sent. */
  lemma SessionOrdered(total: nat, pos: nat, events: seq<Event>, k: nat)
    requires pos <= total && k < |Session(total, pos, events)|
    ensures var s := Session(total, pos, events);
            && PositionBefore(pos, s, k) <= s[k].lo < s[k].hi <= s[k].total <= total + |Logged(events)|
            && s[k].hi - s[k].lo <= CHUNK && s[k].total - s[k].lo <= RING
            && PositionBefore(pos, s, k) <= s[k].total && s[k] == Chunk(s[k].total, PositionBefore(pos, s, k))
  {
    ChunksOrdered(total, pos, events, k);
  }

  /** Between two chunks exactly the bytes the ring had lost by then are missing, provided the client
      was less than 2^32 bytes behind. */
  lemma GapIsWhatWasOverwritten(total: nat, pos: nat, events: seq<Event>, k: nat)
    requires pos <= total && k < |Session(total, pos, events)|
    ensures var s := Session(total, pos, events);
            var before, now := PositionBefore(pos, s, k), s[k].total;
            && (s[k].lo == Max(before, now - RING) <==> now - before < WORD || Word(now - before) >= RING)
            && (now - before <= RING ==> s[k].lo == before)
  {
    SessionOrdered(total, pos, events, k);
    var s := Session(total, pos, events);
    StartExact(s[k].total, PositionBefore(pos, s, k));
  }

  /** A client that keeps up is sent the log from where it started, whole and in order. */
  lemma {:induction false} KeepingUpIsLossless(log: string, pos: nat, spans: seq<Span>)
    requires forall k :: 0 <= k < |spans| ==> spans[k].lo <= spans[k].hi <= |log|
    requires forall k :: 0 <= k < |spans| ==> spans[k].lo == PositionBefore(pos, spans, k)
    requires pos <= |log|
    ensures pos <= PositionBefore(pos, spans, |spans|) <= |log|
    ensures Sent(log, spans) == log[pos..PositionBefore(pos, spans, |spans|)]
    decreases |spans|
  {
    if spans == [] {
    } else {
      var s, rest := spans[0], spans[1..];
      assert s.lo == PositionBefore(pos, spans, 0);
      forall k | 0 <= k < |rest| ensures rest[k].lo == PositionBefore(s.hi, rest, k) {
        assert spans[k + 1].lo == PositionBefore(pos, spans, k + 1);
      }
      KeepingUpIsLossless(log, s.hi, rest);
      assert PositionBefore(pos, spans, |spans|) == PositionBefore(s.hi, rest, |rest|);
    }
  }

  /** No turn among the first n events finds the client gone. */
  predicate Stays(events: seq<Event>, n: nat) {
    n <= |events| && forall k :: 0 <= k < n ==> events[k] != Turn(false)
  }

  /** The chunk of a turn, if there is anything to send. */
  function Next(total: nat, pos: nat): seq<Span>
    requires pos <= total
  {
    if Chunk(total, pos).lo < Chunk(total, pos).hi then [Chunk(total, pos)] else []
  }

  /** What event e adds to a session that stands at `at` with `now` bytes logged. */
  function Gains(now: nat, at: nat, e: Event): seq<Span> {
    if e == Turn(true) && at <= now then Next(now, at) else []
  }

  /** Event e, and after the client is found gone anything. */
  function EventThen(e: Event, later: seq<Event>): seq<Event> {
    if e == Turn(false) then [e] + later else [e]
  }

  /** How much has been logged, and where the client is, after one event that leaves it there. */
  function StandsOn(total: nat, pos: nat, e: Event): (r: (nat, nat))
    requires pos <= total
    ensures r.1 <= r.0
  {
    if e.Logs? then (total + |Captured(e.text)|, pos)
    else (total, if Next(total, pos) != [] then Chunk(total, pos).hi else pos)
  }

  function Standing(total: nat, pos: nat, events: seq<Event>): (r: (nat, nat))
    requires pos <= total
    ensures r.1 <= r.0
    decreases |events|
  {
    if events == [] then (total, pos)
    else Standing(StandsOn(total, pos, events[0]).0, StandsOn(total, pos, events[0]).1, events[1..])
  }

  /** The first of the events has been seen to, with the client there. */
  predicate Tail(events: seq<Event>, rest: seq<Event>) {
    events != [] && rest == events[1..] && events[0] != Turn(false)
  }

  lemma TailOf(events: seq<Event>, rest: seq<Event>, more: seq<Event>)
    requires Tail(events, rest)
    ensures (events + more)[0] == events[0] && Tail(events + more, rest + more)
  {}

  lemma Unfolds(total: nat, pos: nat, events: seq<Event>, rest: seq<Event>, now: nat, at: nat)
    requires pos <= total && Tail(events, rest) && (now, at) == StandsOn(total, pos, events[0])
    ensures Session(total, pos, events) == Gains(total, pos, events[0]) + Session(now, at, rest)
  {
    if Gains(total, pos, events[0]) == [] { NothingBefore(Session(now, at, rest)); }
  }

  lemma AddedAfter(total: nat, pos: nat, events: seq<Event>, rest: seq<Event>, more: seq<Event>, now: nat, at: nat, g: seq<Span>)
    requires pos <= total && Tail(events, rest) && (now, at) == StandsOn(total, pos, events[0])
    requires Session(now, at, rest + more) == Session(now, at, rest) + g
    ensures Session(total, pos, events + more) == Session(total, pos, events) + g
  {
    TailOf(events, rest, more);
    Unfolds(total, pos, events, rest, now, at);
    Unfolds(total, pos, events + more, rest + more, now, at);
    Regroup(Gains(total, pos, events[0]), Session(now, at, rest), g);
  }

  lemma FirstAdded(total: nat, pos: nat, e: Event, later: seq<Event>)
    requires pos <= total
    ensures Session(total, pos, EventThen(e, later)) == Gains(total, pos, e)
  {
    SessionStep(total, pos, e, []);
    SessionStep(total, pos, e, later);
    assert [e] + [] == [e];
  }

  lemma {:induction false} EventAdds(total: nat, pos: nat, events: seq<Event>, e: Event, later: seq<Event>, g: seq<Span>)
    requires pos <= total && Stays(events, |events|)
    requires var (now, at) := Standing(total, pos, events); g == Gains(now, at, e)
    ensures Session(total, pos, events + EventThen(e, later)) == Session(total, pos, events) + g
    decreases |events|
  {
    if events == [] {
      FirstAdded(total, pos, e, later);
      NothingBefore(EventThen(e, later));
      NothingBefore(g);
    } else {
      var (now, at) := StandsOn(total, pos, events[0]);
      EventAdds(now, at, events[1..], e, later, g);
      AddedAfter(total, pos, events, events[1..], EventThen(e, later), now, at, g);
    }
  }

  /** Where the last chunk ends, or the client's first position. */
  function EndOf(pos: nat, spans: seq<Span>): nat {
    PositionBefore(pos, spans, |spans|)
  }

  lemma StandsLogged(total: nat, pos: nat, events: seq<Event>, rest: seq<Event>, now: nat, at: nat)
    requires pos <= total && Tail(events, rest) && (now, at) == StandsOn(total, pos, events[0])
    ensures now + |Logged(rest)| == total + |Logged(events)|
  {
    LoggedFirst(events);
  }

  lemma StandsEnd(total: nat, pos: nat, events: seq<Event>, rest: seq<Event>, now: nat, at: nat)
    requires pos <= total && Tail(events, rest) && (now, at) == StandsOn(total, pos, events[0])
    ensures EndOf(pos, Session(total, pos, events)) == EndOf(at, Session(now, at, rest))
  {
    Unfolds(total, pos, events, rest, now, at);
    PositionAfter(pos, Gains(total, pos, events[0]), at, Session(now, at, rest));
  }

  lemma {:induction false} StandingExact(total: nat, pos: nat, events: seq<Event>)
    requires pos <= total && Stays(events, |events|)
    ensures Standing(total, pos, events) == (total + |Logged(events)|, EndOf(pos, Session(total, pos, events)))
    decreases |events|
  {
    if events == [] {
    } else {
      var (now, at) := StandsOn(total, pos, events[0]);
      StandingExact(now, at, events[1..]);
      StandsLogged(total, pos, events, events[1..], now, at);
      StandsEnd(total, pos, events, events[1..], now, at);
    }
  }

  lemma PositionAfter(pos: nat, first: seq<Span>, at: nat, rest: seq<Span>)
    requires if first == [] then at == pos else |first| == 1 && at == first[0].hi
    ensures EndOf(pos, first + rest) == EndOf(at, rest)
  {
    if first == [] { NothingBefore(rest); }
  }

  /** What one more event adds to the session of a client that has been there all along: a turn that finds it
      there the chunk at its position, and nothing else anything; one that finds it gone ends the session. */
  lemma OneMoreEvent(total: nat, pos: nat, events: seq<Event>, e: Event, later: seq<Event>) returns (now: nat, at: nat)
    requires pos <= total && Stays(events, |events|)
    ensures now == total + |Logged(events)| && at == EndOf(pos, Session(total, pos, events)) && at <= now
    ensures Session(total, pos, events + EventThen(e, later)) == Session(total, pos, events) + Gains(now, at, e)
  {
    now, at := Standing(total, pos, events).0, Standing(total, pos, events).1;
    EventAdds(total, pos, events, e, later, Gains(now, at, e));
    StandingExact(total, pos, events);
  }

  /** A turn sends the lesser of 512 bytes and what the ring holds of the client's wrapped lag: something
      exactly if that lag is not zero. */
  lemma TurnSends(total: nat, pos: nat)
    requires pos <= total
    ensures var c := Chunk(total, pos);
            && c.lo == total - Min(Word(total - pos), 4096) && c.total == total
            && c.hi - c.lo == Min(512, Min(Word(total - pos), 4096))
            && (c.lo < c.hi <==> (total - pos) % WORD != 0)
  {}

  /** So many turns that find the client there, with nothing logged meanwhile. */
  function Turns(n: nat): (events: seq<Event>)
    ensures |events| == n
  {
    if n == 0 then [] else [Turn(true)] + Turns(n - 1)
  }

  lemma TurnFirst(total: nat, pos: nat, n: nat)
    requires pos <= total && n > 0
    ensures var c := Chunk(total, pos);
            Session(total, pos, Turns(n)) ==
            if c.lo < c.hi then [c] + Session(total, c.hi, Turns(n - 1)) else Session(total, pos, Turns(n - 1))
  {
    assert Turns(n)[1..] == Turns(n - 1);
  }

  lemma {:induction false} NothingLogged(n: nat)
    ensures Logged(Turns(n)) == ""
  {
    if n == 0 {
    } else {
      NothingLogged(n - 1);
      assert Turns(n)[1..] == Turns(n - 1);
    }
  }

  /** The chunks run from lo to hi without a gap. */
  predicate Covers(spans: seq<Span>, lo: nat, hi: nat) {
    if spans == [] then lo == hi
    else spans[0].lo == lo < spans[0].hi && Covers(spans[1..], spans[0].hi, hi)
  }

  lemma {:induction false} CoversIsGapless(spans: seq<Span>, lo: nat, hi: nat)
    requires Covers(spans, lo, hi)
    ensures lo <= hi && PositionBefore(lo, spans, |spans|) == hi
    ensures forall k :: 0 <= k < |spans| ==> spans[k].lo == PositionBefore(lo, spans, k) && spans[k].lo < spans[k].hi <= hi
    decreases |spans|
  {
    if spans == [] {
    } else {
      var s, rest := spans[0], spans[1..];
      CoversIsGapless(rest, s.hi, hi);
      forall k | 0 <= k < |spans|
        ensures spans[k].lo == PositionBefore(lo, spans, k) && spans[k].lo < spans[k].hi <= hi
      {
        if k > 0 { assert rest[k - 1].lo == PositionBefore(s.hi, rest, k - 1); }
      }
      assert PositionBefore(lo, spans, |spans|) == PositionBefore(s.hi, rest, |rest|);
    }
  }

  /** A client at most 512 n bytes and a ring behind is brought up to date by n turns. */
  lemma {:induction false} TurnsCatchUp(total: nat, pos: nat, n: nat)
    requires pos <= total && total - pos <= 4096 && total - pos <= 512 * n
    ensures Covers(Session(total, pos, Turns(n)), pos, total)
    decreases n
  {
    if pos == total {
      NothingNew(total, pos, n);
    } else {
      var hi := SendsNext(total, pos, n);
      TurnsCatchUp(total, hi, n - 1);
      CoversFirst(Span(pos, hi, total), Session(total, hi, Turns(n - 1)), total);
    }
  }

  lemma SendsNext(total: nat, pos: nat, n: nat) returns (hi: nat)
    requires pos < total <= pos + 4096 && n > 0
    ensures hi == pos + Min(512, total - pos) && pos < hi <= total
    ensures Session(total, pos, Turns(n)) == [Span(pos, hi, total)] + Session(total, hi, Turns(n - 1))
  {
    TurnSends(total, pos);
    TurnFirst(total, pos, n);
    hi := Chunk(total, pos).hi;
  }

  lemma CoversFirst(c: Span, rest: seq<Span>, hi: nat)
    requires c.lo < c.hi && Covers(rest, c.hi, hi)
    ensures Covers([c] + rest, c.lo, hi)
  {
    assert ([c] + rest)[1..] == rest;
  }

  /** While nothing is logged, eight turns bring any client up to date: if the total differs from its
      position modulo 2^32 it has then been sent everything from the place it reads on from up to the end, and
      that is from its own position if it was at most 4096 bytes behind; if not it is sent nothing. */
  lemma EightTurnsCatchUp(log: string, pos: nat, n: nat)
    requires pos <= |log| && n >= 8
    ensures Logged(Turns(n)) == ""
    ensures var lo := if (|log| - pos) % WORD == 0 then |log| else ReadFrom(|log|, pos);
            && Due(log, |log|, pos, Turns(n)) == log[lo..]
            && (|log| - pos <= 4096 ==> lo == pos)
  {
    NothingLogged(n);
    var total := |log|;
    if (total - pos) % WORD == 0 {
      NothingNew(total, pos, n);
    } else {
      FirstTurn(total, pos, n);
      SentIsRest(log, ReadFrom(total, pos), Session(total, pos, Turns(n)));
    }
  }

  lemma SentIsRest(log: string, lo: nat, spans: seq<Span>)
    requires Covers(spans, lo, |log|)
    ensures forall k :: 0 <= k < |spans| ==> spans[k].lo <= spans[k].hi <= |log|
    ensures lo <= |log| && Sent(log, spans) == log[lo..]
  {
    CoversIsGapless(spans, lo, |log|);
    KeepingUpIsLossless(log, lo, spans);
  }

  lemma {:induction false} NothingNew(total: nat, pos: nat, n: nat)
    requires pos <= total && (total - pos) % WORD == 0
    ensures Session(total, pos, Turns(n)) == []
  {
    if n == 0 {
    } else {
      TurnSends(total, pos);
      TurnFirst(total, pos, n);
      NothingNew(total, pos, n - 1);
    }
  }

  lemma FirstTurn(total: nat, pos: nat, n: nat)
    requires pos <= total && (total - pos) % WORD != 0 && n >= 8
    ensures Covers(Session(total, pos, Turns(n)), ReadFrom(total, pos), total)
  {
    TurnSends(total, pos);
    TurnFirst(total, pos, n);
    var c := Chunk(total, pos);
    TurnsCatchUp(total, c.hi, n - 1);
    CoversFirst(c, Session(total, c.hi, Turns(n - 1)), total);
  }

  /** At most 255 characters of a text are logged, its first ones, and all of a text no longer than that. */
  lemma CapturedExact(text: string)
    ensures Captured(Some(text)) <= text && |Captured(Some(text))| == if |text| <= 255 then |text| else 255
    ensures Captured(None) == ""
  {}

  /** At the first wrap of the counter a new client starts at the end: of the whole ring it is sent
      nothing. */
  lemma ConnectAfterWrap()
    ensures ConnectAt(WORD) == WORD && Max(0, WORD - RING) == WORD - RING
    ensures Session(WORD, ConnectAt(WORD), [Turn(true)]) == []
  {
    assert Session(WORD, WORD, []) == [];
  }

  /** The limit is sharp: 2^32 + 1 bytes behind, a client is told of one new byte. */
  lemma HugeLagSkips(total: nat)
    requires total >= WORD + 1
    ensures Session(total, total - WORD - 1, [Turn(true)]) == [Span(total - 1, total, total)]
  {}

  // ---------------------------------------------------------------- the ring

  class Ring {
    const data: array<char>
    var writeTotal: nat
    ghost var log: string

    /** The ring holds the last 4096 bytes of the log. */
    ghost predicate Valid()
      reads this, data
    {
      data.Length == RING && writeTotal == Word(|log|) && Holds(log)
    }

    ghost predicate Holds(t: string)
      requires data.Length == RING
      reads this, data
    {
      forall i: nat :: |t| - RING <= i < |t| ==> data[Slot(i)] == t[i]
    }

    constructor ()
      ensures Valid() && log == "" && fresh(data)
    {
      data := new char[RING];
      writeTotal := 0;
      log := "";
    }

    /** log_capture_vprintf. The formatted text is what vsnprintf would have written with room enough;
        the result says whether the worker is notified. */
    method Capture(text: Option<string>) returns (notify: bool)
      requires Valid()
      modifies this, data
      ensures Valid() && log == old(log) + Captured(text)
      ensures notify <==> Captured(text) != ""
    {
      notify := false;
      if text.None? || |text.value| == 0 {
        assert log == log + Captured(text);
        return;
      }
      var len := Min(|text.value|, LINE_MAX - 1);
      Store(text.value[..len]);
      return true;
    }

    method Store(line: string)
      requires Valid()
      modifies this, data
      ensures Valid() && log == old(log) + line
    {
      ghost var n, all := |log|, log + line;
      for index := 0 to |line|
        invariant log == old(log) && writeTotal == Word(n) && n + index <= |all|
        invariant Holds(all[..n + index])
      {
        SlotOfWord(n, index);
        forall i: nat | n + index + 1 - RING <= i < n + index ensures Slot(i) != Slot(n + index) {
          SlotsDiffer(i, n + index);
        }
        data[Slot(Word(writeTotal + index))] := line[index];
      }
      assert all[..n + |line|] == all;
      WordOfSum(n, |line|);
      writeTotal := Word(writeTotal + |line|);
      log := all;
    }

    /** Where a client that just connected starts. */
    method Connect() returns (lastSent: nat)
      requires Valid()
      ensures lastSent == Word(ConnectAt(|log|))
    {
      lastSent := if writeTotal > RING then writeTotal - RING else 0;
      ConnectWord(|log|);
    }

    /** One turn of the send loop up to the send: the bytes copied out, and the cursor at the first of
        them. */
    method Fetch(lastSent: nat, ghost pos: nat) returns (first: nat, chunk: string)
      requires Valid() && pos <= |log| && lastSent == Word(pos)
      ensures var c := Chunk(|log|, pos);
              chunk == log[c.lo..c.hi] && first == if c.lo < c.hi then Word(c.lo) else lastSent
    {
      WordOfDifference(|log|, pos);
      first := lastSent;
      var available := Word(writeTotal - lastSent);
      ghost var lo := ReadFrom(|log|, pos);
      if available > RING {
        WordOfDifference(|log|, RING);
        first := Word(writeTotal - RING);
        available := RING;
      } else {
        FirstIsLast(|log|, pos);
      }
      assert first == Word(lo) && available == |log| - lo;
      chunk := CopyOut(first, Min(available, CHUNK), lo);
    }

    method CopyOut(first: nat, toCopy: nat, ghost lo: nat) returns (chunk: string)
      requires Valid() && first == Word(lo) && |log| <= lo + RING && lo + toCopy <= |log|
      ensures chunk == log[lo..lo + toCopy]
    {
      chunk := "";
      for index := 0 to toCopy
        invariant chunk == log[lo..lo + index]
      {
        SlotOfWord(lo, index);
        chunk := chunk + [data[Slot(Word(first + index))]];
      }
    }

    /** The send, or the peek when there is nothing to send, and the new cursor. */
    method TakeTurn(lastSent: nat, ok: bool, ghost pos: nat) returns (next: nat, chunk: string, ghost to: nat)
      requires Valid() && pos <= |log| && lastSent == Word(pos)
      ensures var c := Chunk(|log|, pos);
              && to == (if c.lo < c.hi then c.hi else pos) && (ok ==> next == Word(to))
              && chunk == log[c.lo..c.hi] && (chunk == "" <==> c.lo == c.hi)
    {
      next, chunk := Fetch(lastSent, pos);
      ghost var c := Chunk(|log|, pos);
      to := if c.lo < c.hi then c.hi else pos;
      if ok && |chunk| > 0 {
        WordOfSum(c.lo, |chunk|);
        next := Word(next + |chunk|);
      }
    }

    /** The turn of a client that is there, or that is found gone. */
    method TurnEvent(ok: bool, lastSent: nat, ghost pos: nat, ghost full: string, ghost rest: seq<Event>)
        returns (next: nat, more: string, ghost to: nat)
      requires Valid() && pos <= |log| && lastSent == Word(pos) && log + Logged([Turn(ok)] + rest) == full
      ensures to <= |log| && log + Logged(rest) == full && (ok ==> next == Word(to))
      ensures Due(full, |log|, pos, [Turn(ok)] + rest) == if ok then more + Due(full, |log|, to, rest) else ""
    {
      FirstEvent(log, Turn(ok), rest);
      SessionStep(|log|, pos, Turn(ok), rest);
      if ok {
        DueChunk(full, log, pos, rest);
      }
      next, more, to := TakeTurn(lastSent, ok, pos);
    }

    /** Another task logs. */
    method LogEvent(text: Option<string>, ghost pos: nat, ghost full: string, ghost rest: seq<Event>)
      requires Valid() && pos <= |log| && log + Logged([Logs(text)] + rest) == full
      modifies this, data
      ensures Valid() && log == old(log) + Captured(text) && log + Logged(rest) == full && pos <= |log|
      ensures Due(full, old(|log|), pos, [Logs(text)] + rest) == Due(full, |log|, pos, rest)
    {
      FirstEvent(log, Logs(text), rest);
      SessionStep(|log|, pos, Logs(text), rest);
      var _ := Capture(text);
    }

    /** One event of a session; more is what it adds to what the client has been sent. */
    method OneEvent(e: Event, lastSent: nat, ghost pos: nat, ghost full: string, ghost rest: seq<Event>)
        returns (next: nat, more: string, gone: bool, ghost to: nat)
      requires Valid() && pos <= |log| && lastSent == Word(pos) && log + Logged([e] + rest) == full
      modifies this, data
      ensures Valid() && log == old(log) + LoggedBy(e) && log + Logged(rest) == full && to <= |log|
      ensures gone <==> e == Turn(false)
      ensures !gone ==> next == Word(to)
      ensures Due(full, old(|log|), pos, [e] + rest) == if gone then "" else more + Due(full, |log|, to, rest)
    {
      match e {
        case Logs(text) =>
          LogEvent(text, pos, full, rest);
          more, gone, to, next := "", false, pos, lastSent;
          NothingBefore(Due(full, |log|, to, rest));
        case Turn(ok) =>
          FirstEvent(log, e, rest);
          gone := !ok;
          next, more, to := TurnEvent(ok, lastSent, pos, full, rest);
      }
    }

    /** log_response_send among the other tasks: what the client is sent, and how many of the events
        took place before it was gone. */
    method ResponseSend(events: seq<Event>) returns (sent: string, used: nat)
      requires Valid()
      modifies this, data
      ensures Valid() && used <= |events| && log == old(log) + Logged(events[..used])
      ensures sent == Due(old(log) + Logged(events), |old(log)|, ConnectAt(|old(log)|), events)
      ensures Stays(events, used) && (used < |events| ==> events[used] == Turn(false))
    {
      var lastSent := Connect();
      ghost var pos: nat := ConnectAt(|log|);
      ghost var full := log + Logged(events);
      FollowsFirst(log, events);
      sent, used := "", 0;
      while used < |events|
        invariant Valid() && lastSent == Word(pos) && Stays(events, used)
        invariant Following(old(log), log, events, used, pos, sent)
      {
        NextEvent(events, used);
        var next, more, gone, to := OneEvent(events[used], lastSent, pos, full, events[used + 1..]);
        FollowsOn(old(log), log, events, used, pos, sent, more, gone, to);
        if gone {
          return;
        }
        lastSent, pos, sent, used := next, to, sent + more, used + 1;
      }
      FollowsLast(old(log), log, events, pos, sent);
    }
  }

  /** After so many events, none of which found the client gone: with what it is still due of the rest, it
      will have been sent what it is due of all. */
  predicate Following(before: string, log: string, events: seq<Event>, used: nat, pos: nat, sent: string) {
    && used <= |events| && pos <= |log| && log == before + Logged(events[..used])
    && log + Logged(events[used..]) == before + Logged(events)
    && sent + Due(before + Logged(events), |log|, pos, events[used..]) ==
       Due(before + Logged(events), |before|, ConnectAt(|before|), events)
  }

  lemma FollowsFirst(log: string, events: seq<Event>)
    ensures Following(log, log, events, 0, ConnectAt(|log|), "")
  {
    assert events[0..] == events && events[..0] == [];
    Regroup(log, "", "");
    NothingBefore(Due(log + Logged(events), |log|, ConnectAt(|log|), events));
  }

  lemma FollowsOn(before: string, now: string, events: seq<Event>, used: nat, pos: nat, sent: string, more: string,
      gone: bool, to: nat)
    requires used < |events|
    requires var log := before + Logged(events[..used]);
             && Following(before, log, events, used, pos, sent) && now == log + LoggedBy(events[used]) && to <= |now|
             && now + Logged(events[used + 1..]) == before + Logged(events)
             && Due(before + Logged(events), |log|, pos, events[used..]) ==
                if gone then "" else more + Due(before + Logged(events), |now|, to, events[used + 1..])
    requires gone ==> events[used] == Turn(false)
    ensures !gone ==> Following(before, now, events, used + 1, to, sent + more)
    ensures gone ==> now == before + Logged(events[..used])
    ensures gone ==> sent == Due(before + Logged(events), |before|, ConnectAt(|before|), events)
  {
    NextEvent(events, used);
    Regroup(before, Logged(events[..used]), LoggedBy(events[used]));
    if gone {
      Regroup(sent, "", "");
    } else {
      Regroup(sent, more, Due(before + Logged(events), |now|, to, events[used + 1..]));
    }
  }

  lemma FollowsLast(before: string, log: string, events: seq<Event>, pos: nat, sent: string)
    requires Following(before, log, events, |events|, pos, sent)
    ensures log == before + Logged(events) && sent == Due(log, |before|, ConnectAt(|before|), events)
    ensures events[..|events|] == events
  {
    assert events[..|events|] == events && events[|events|..] == [];
    Regroup(sent, "", "");
  }

  lemma NextEvent(events: seq<Event>, n: nat)
    requires n < |events|
    ensures events[n..] == [events[n]] + events[n + 1..]
    ensures Logged(events[..n + 1]) == Logged(events[..n]) + LoggedBy(events[n])
  {
    SplitAt(events, n);
    LoggedAppend(events[..n], events[n]);
  }

  lemma SplitAt<T>(s: seq<T>, n: nat)
    requires n < |s|
    ensures s[n..] == [s[n]] + s[n + 1..]
    ensures s[..n + 1] == s[..n] + [s[n]]
  {}

  lemma FirstEvent(log: string, e: Event, rest: seq<Event>)
    ensures log + Logged([e] + rest) == (log + LoggedBy(e)) + Logged(rest)
    ensures e.Turn? ==> log + LoggedBy(e) == log
  {}

  lemma {:induction false} LoggedAppend(events: seq<Event>, e: Event)
    ensures Logged(events + [e]) == Logged(events) + LoggedBy(e)
  {
    if events == [] {
      Regroup(LoggedBy(e), "", "");
      assert [e][1..] == [] && Logged([e][1..]) == "";
    } else {
      LoggedAppend(events[1..], e);
      assert (events + [e])[1..] == events[1..] + [e];
      Regroup(LoggedBy(events[0]), Logged(events[1..]), LoggedBy(e));
    }
  }

  lemma SessionStep(total: nat, pos: nat, e: Event, rest: seq<Event>)
    requires pos <= total
    ensures Session(total, pos, [e] + rest) ==
            match e
            case Logs(text) => Session(total + |LoggedBy(e)|, pos, rest)
            case Turn(ok) =>
              var c := Chunk(total, pos);
              if !ok then []
              else (if c.lo < c.hi then [c] else []) + Session(total, if c.lo < c.hi then c.hi else pos, rest)
  {}

  lemma NextChunk(full: string, log: string, c: Span, rest: seq<Span>)
    requires log <= full && c.lo <= c.hi <= |log| && forall k :: 0 <= k < |rest| ==> rest[k].lo <= rest[k].hi <= |full|
    ensures Sent(full, (if c.lo < c.hi then [c] else []) + rest) == log[c.lo..c.hi] + Sent(full, rest)
  {
    assert log[c.lo..c.hi] == full[c.lo..c.hi];
    if c.lo < c.hi {
      assert ([c] + rest)[1..] == rest;
    } else {
      assert [] + rest == rest;
    }
  }

  lemma DueChunk(full: string, log: string, pos: nat, rest: seq<Event>)
    requires pos <= |log| && log + Logged([Turn(true)] + rest) == full
    ensures |log| + |Logged(rest)| <= |full|
    ensures var c := Chunk(|log|, pos);
            Due(full, |log|, pos, [Turn(true)] + rest) ==
            log[c.lo..c.hi] + Due(full, |log|, if c.lo < c.hi then c.hi else pos, rest)
  {
    var c := Chunk(|log|, pos);
    FirstEvent(log, Turn(true), rest);
    SessionStep(|log|, pos, Turn(true), rest);
    NextChunk(full, log, c, Session(|log|, if c.lo < c.hi then c.hi else pos, rest));
  }

  lemma ConnectWord(total: nat)
    ensures Word(ConnectAt(total)) == if Word(total) > RING then Word(total) - RING else 0
  {}

  /** A cursor within a ring of the end names its own position. */
  lemma FirstIsLast(total: nat, pos: nat)
    requires pos <= total && Word(total - pos) <= RING
    ensures Word(ReadFrom(total, pos)) == Word(pos)
  {}
}
