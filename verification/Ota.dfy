/** The firmware upload of main/ota_update.c: the receive loop, the checks behind it, and what is
    promised on every way out. */
module Ota {
  import opened Nmea
  import opened Basics

  const BUFFER := 1024
  const DIGEST_LEN := 32
  const MAX_TIMEOUTS := 3

  datatype Status = OK | FAIL

  /** What the rest of the system answers: the k-th receive, the k-th hash update and flash write, and
      the calls made once. digest is SHA-256, about which nothing is assumed. */
  datatype World = World(setup: bool, begin: bool, recv: nat -> Recv, update: nat -> bool, write: nat -> bool,
                         digest: seq<byte> -> seq<byte>, finish: bool, end: bool, boot: bool)

  datatype Call =
    | HashSetup(ok: bool) | HashUpdate(piece: seq<byte>, ok: bool) | HashFinish(ok: bool) | HashAbort
    | OtaBegin(ok: bool) | OtaWrite(piece: seq<byte>, ok: bool) | OtaEnd(ok: bool) | OtaAbort
    | SetBoot(ok: bool) | Received(piece: seq<byte>) | Reply(status: nat)

  /** What of an answer fits the request. */
  function Taken(bytes: seq<byte>, remaining: nat): (piece: seq<byte>)
    ensures |piece| <= remaining && |piece| <= BUFFER
    ensures remaining > 0 && bytes != [] ==> piece != []
    ensures piece <= bytes && (|bytes| <= remaining && |bytes| <= 1024 ==> piece == bytes)
  {
    bytes[..Min(|bytes|, Min(remaining, BUFFER))]
  }

  function Join(pieces: seq<seq<byte>>): seq<byte> {
    if pieces == [] then [] else Join(pieces[..|pieces| - 1]) + pieces[|pieces| - 1]
  }

  // ---------------------------------------------------------------- the receive loop

  datatype Exit = Complete | TimedOut | Disconnected | HashFailed | WriteFailed

  /** How the loop ends: the pieces written, and the receive calls made. */
  datatype Upload = Upload(exit: Exit, pieces: seq<seq<byte>>, calls: nat)

  function Receive(w: World, remaining: nat, timeouts: nat, pieces: seq<seq<byte>>, calls: nat): (u: Upload)
    requires timeouts < MAX_TIMEOUTS
    decreases remaining, MAX_TIMEOUTS - timeouts
  {
    if remaining == 0 then Upload(Complete, pieces, calls)
    else
      match w.recv(calls)
      case Timeout =>
        if timeouts + 1 < MAX_TIMEOUTS then Receive(w, remaining, timeouts + 1, pieces, calls + 1)
        else Upload(TimedOut, pieces, calls + 1)
      case Gone => Upload(Disconnected, pieces, calls + 1)
      case Data(bytes) =>
        var piece := Taken(bytes, remaining);
        if bytes == [] then Upload(Disconnected, pieces, calls + 1)
        else if !w.update(|pieces|) then Upload(HashFailed, pieces, calls + 1)
        else if !w.write(|pieces|) then Upload(WriteFailed, pieces, calls + 1)
        else Receive(w, remaining - |piece|, 0, pieces + [piece], calls + 1)
  }

  function Whole(w: World, contentLen: nat): Upload {
    Receive(w, contentLen, 0, [], 0)
  }

  /** However the client behaves there are at most three receive calls a byte. */
  lemma {:induction false} CallsBounded(w: World, remaining: nat, timeouts: nat, pieces: seq<seq<byte>>, calls: nat)
    requires timeouts < MAX_TIMEOUTS && (remaining == 0 ==> timeouts == 0)
    ensures Receive(w, remaining, timeouts, pieces, calls).calls - calls <= 3 * remaining - timeouts
    decreases remaining, MAX_TIMEOUTS - timeouts
  {
    if remaining == 0 {
    } else {
      match w.recv(calls)
      case Timeout =>
        if timeouts + 1 < MAX_TIMEOUTS { CallsBounded(w, remaining, timeouts + 1, pieces, calls + 1); }
      case Gone =>
      case Data(bytes) =>
        var piece := Taken(bytes, remaining);
        if bytes != [] && w.update(|pieces|) && w.write(|pieces|) {
          CallsBounded(w, remaining - |piece|, 0, pieces + [piece], calls + 1);
        }
    }
  }

  /** Two silences and a byte. */
  lemma ThreeCalls(w: World, remaining: nat, pieces: seq<seq<byte>>, calls: nat)
    requires remaining > 0 && w.recv(calls) == w.recv(calls + 1) == Timeout && w.recv(calls + 2) == Data([0])
    requires w.update(|pieces|) && w.write(|pieces|)
    ensures Receive(w, remaining, 0, pieces, calls) == Receive(w, remaining - 1, 0, pieces + [[0]], calls + 3)
  {
    assert Taken([0], remaining) == [0];
    assert Receive(w, remaining, 0, pieces, calls) == Receive(w, remaining, 1, pieces, calls + 1);
    assert Receive(w, remaining, 1, pieces, calls + 1) == Receive(w, remaining, 2, pieces, calls + 2);
  }

  /** And the slowest client there is takes exactly that many. */
  lemma {:induction false} SlowestClient(w: World, remaining: nat, pieces: seq<seq<byte>>, calls: nat)
    requires forall k: nat :: w.recv(k) == if k % 3 == 2 then Data([0]) else Timeout
    requires forall k: nat :: w.update(k) && w.write(k)
    requires calls % 3 == 0
    ensures Receive(w, remaining, 0, pieces, calls).exit == Complete
    ensures Receive(w, remaining, 0, pieces, calls).calls == calls + 3 * remaining
    decreases remaining
  {
    if remaining == 0 {
    } else {
      assert w.recv(calls) == w.recv(calls + 1) == Timeout && w.recv(calls + 2) == Data([0]);
      assert w.update(|pieces|) && w.write(|pieces|);
      ThreeCalls(w, remaining, pieces, calls);
      SlowestClient(w, remaining - 1, pieces + [[0]], calls + 3);
    }
  }

  /** Nothing is lost or invented: what is written and what remains make up the announced length, and
      nothing remains exactly when the upload is complete. */
  lemma {:induction false} WrittenAndRemaining(w: World, remaining: nat, timeouts: nat, pieces: seq<seq<byte>>, calls: nat)
    requires timeouts < MAX_TIMEOUTS
    ensures var u := Receive(w, remaining, timeouts, pieces, calls);
            && |Join(u.pieces)| <= |Join(pieces)| + remaining
            && (u.exit == Complete <==> |Join(u.pieces)| == |Join(pieces)| + remaining)
    decreases remaining, MAX_TIMEOUTS - timeouts
  {
    if remaining == 0 {
    } else {
      match w.recv(calls)
      case Timeout =>
        if timeouts + 1 < MAX_TIMEOUTS { WrittenAndRemaining(w, remaining, timeouts + 1, pieces, calls + 1); }
      case Gone =>
      case Data(bytes) =>
        var piece := Taken(bytes, remaining);
        if bytes != [] && w.update(|pieces|) && w.write(|pieces|) {
          JoinAppend(pieces, piece);
          WrittenAndRemaining(w, remaining - |piece|, 0, pieces + [piece], calls + 1);
        }
    }
  }

  lemma JoinAppend(pieces: seq<seq<byte>>, piece: seq<byte>)
    ensures Join(pieces + [piece]) == Join(pieces) + piece
  {}

  /** The last answer the loop had from the client. */
  function LastAnswer(w: World, u: Upload): Recv {
    if u.calls == 0 then Gone else w.recv(u.calls - 1)
  }

  predicate Arrives(answer: Recv) {
    answer.Data? && answer.bytes != []
  }

  /** Why the loop ended, read off the client's last answer and the library's answers to the next piece. */
  predicate EndedBy(w: World, u: Upload) {
    var n := |u.pieces|;
    match u.exit
    case Complete => true
    case TimedOut => LastAnswer(w, u) == Timeout
    case Disconnected => Absent(LastAnswer(w, u))
    case HashFailed => Arrives(LastAnswer(w, u)) && !w.update(n)
    case WriteFailed => Arrives(LastAnswer(w, u)) && w.update(n) && !w.write(n)
  }

  lemma {:induction false} LoopEndedBy(w: World, remaining: nat, timeouts: nat, pieces: seq<seq<byte>>, calls: nat)
    requires timeouts < MAX_TIMEOUTS
    ensures var u := Receive(w, remaining, timeouts, pieces, calls);
            && EndedBy(w, u) && u.calls >= calls + (if remaining > 0 then 1 else 0)
            && (forall k :: calls <= k < u.calls - 1 ==> !Absent(w.recv(k)))
            && |u.pieces| >= |pieces| && (forall k :: |pieces| <= k < |u.pieces| ==> w.update(k) && w.write(k))
    decreases remaining, MAX_TIMEOUTS - timeouts
  {
    if remaining == 0 {
    } else {
      match w.recv(calls)
      case Timeout =>
        if timeouts + 1 < MAX_TIMEOUTS { LoopEndedBy(w, remaining, timeouts + 1, pieces, calls + 1); }
      case Gone =>
      case Data(bytes) =>
        var piece := Taken(bytes, remaining);
        if bytes != [] && w.update(|pieces|) && w.write(|pieces|) {
          LoopEndedBy(w, remaining - |piece|, 0, pieces + [piece], calls + 1);
        }
    }
  }

  predicate Silent(w: World, k: nat) {
    w.recv(k) == Timeout
  }

  /** An upload times out on the third receive in a row without an answer, and only then. */
  lemma {:induction false} ThirdTimeout(w: World, remaining: nat, timeouts: nat, pieces: seq<seq<byte>>, calls: nat, k: nat)
    requires timeouts < MAX_TIMEOUTS && timeouts <= calls
    requires forall j :: calls - timeouts <= j < calls ==> Silent(w, j)
    requires timeouts < calls ==> !Silent(w, calls - timeouts - 1)
    requires calls <= k < Receive(w, remaining, timeouts, pieces, calls).calls
    ensures (k >= 2 && Silent(w, k) && Silent(w, k - 1) && Silent(w, k - 2)) <==>
            var u := Receive(w, remaining, timeouts, pieces, calls); u.exit == TimedOut && k == u.calls - 1
    decreases remaining, MAX_TIMEOUTS - timeouts
  {
    match w.recv(calls)
    case Timeout =>
      if timeouts + 1 < MAX_TIMEOUTS {
        if k > calls {
          ThirdTimeout(w, remaining, timeouts + 1, pieces, calls + 1, k);
        } else {
          LoopEndedBy(w, remaining, timeouts + 1, pieces, calls + 1);
        }
      }
    case Gone =>
    case Data(bytes) =>
      var piece := Taken(bytes, remaining);
      if bytes != [] && w.update(|pieces|) && w.write(|pieces|) {
        if k > calls {
          ThirdTimeout(w, remaining - |piece|, 0, pieces + [piece], calls + 1, k);
        } else {
          LoopEndedBy(w, remaining - |piece|, 0, pieces + [piece], calls + 1);
        }
      }
  }

  /** So of the whole upload. */
  lemma TimesOutExactly(w: World, contentLen: nat, k: nat)
    requires k < Whole(w, contentLen).calls
    ensures var u := Whole(w, contentLen);
            (k >= 2 && Silent(w, k) && Silent(w, k - 1) && Silent(w, k - 2)) <==> u.exit == TimedOut && k == u.calls - 1
  {
    ThirdTimeout(w, contentLen, 0, [], 0, k);
  }

  /** An upload that stays short of its announced length has timed out exactly if the last answer was
      silence, was disconnected exactly if it was an absence, and failed in the hash or in the flash exactly
      if bytes came that the hash, or after it the flash, refused; no answer before was an absence, and no
      piece before was refused. */
  lemma EndsExactly(w: World, contentLen: nat)
    ensures var u := Whole(w, contentLen);
            var short, last, n := |Join(u.pieces)| < contentLen, LastAnswer(w, u), |u.pieces|;
            && (u.exit == Complete <==> !short)
            && (u.exit == TimedOut <==> short && last == Timeout)
            && (u.exit == Disconnected <==> short && Absent(last))
            && (u.exit == HashFailed <==> short && Arrives(last) && !w.update(n))
            && (u.exit == WriteFailed <==> short && Arrives(last) && w.update(n) && !w.write(n))
            && (forall k :: 0 <= k < u.calls - 1 ==> !Absent(w.recv(k)))
            && (forall k :: 0 <= k < n ==> w.update(k) && w.write(k))
  {
    LoopEndedBy(w, contentLen, 0, [], 0);
    WrittenAndRemaining(w, contentLen, 0, [], 0);
  }

  // ---------------------------------------------------------------- what the client sent

  /** The bytes that the first n receives brought, joined. */
  function Brought(w: World, n: nat): seq<byte> {
    if n == 0 then [] else Brought(w, n - 1) + if w.recv(n - 1).Data? then w.recv(n - 1).bytes else []
  }

  /** The k-th answer does not exceed what the loop asks for: the rest of the announced length, and 1024
      bytes. This is what httpd_req_recv keeps to. */
  predicate FitsRequest(w: World, contentLen: nat, k: nat) {
    w.recv(k).Data? ==> |Brought(w, k)| + |w.recv(k).bytes| <= contentLen && |w.recv(k).bytes| <= 1024
  }

  predicate Fitting(w: World, contentLen: nat, n: nat) {
    forall k: nat :: k < n ==> FitsRequest(w, contentLen, k)
  }

  /** The receives that were hashed and written: all, but for a last one that the hash or the flash refused. */
  function Accepted(u: Upload): nat {
    if (u.exit == HashFailed || u.exit == WriteFailed) && u.calls > 0 then u.calls - 1 else u.calls
  }

  lemma PieceBrought(w: World, contentLen: nat, remaining: nat, pieces: seq<seq<byte>>, calls: nat)
    requires w.recv(calls).Data? && FitsRequest(w, contentLen, calls)
    requires Join(pieces) == Brought(w, calls) && remaining + |Join(pieces)| == contentLen
    ensures var piece := Taken(w.recv(calls).bytes, remaining);
            Join(pieces + [piece]) == Brought(w, calls + 1) && remaining - |piece| + |Join(pieces + [piece])| == contentLen
  {
    JoinAppend(pieces, Taken(w.recv(calls).bytes, remaining));
  }

  lemma NothingBrought(w: World, calls: nat)
    requires !w.recv(calls).Data? || w.recv(calls).bytes == []
    ensures Brought(w, calls + 1) == Brought(w, calls)
  {
    assert Brought(w, calls) + [] == Brought(w, calls);
  }

  /** The loop goes on after its next receive. */
  predicate GoesOn(w: World, timeouts: nat, pieces: seq<seq<byte>>, calls: nat) {
    if w.recv(calls) == Timeout then timeouts + 1 < MAX_TIMEOUTS
    else Arrives(w.recv(calls)) && w.update(|pieces|) && w.write(|pieces|)
  }

  lemma StopsHere(w: World, remaining: nat, timeouts: nat, pieces: seq<seq<byte>>, calls: nat)
    requires timeouts < MAX_TIMEOUTS && remaining > 0 && !GoesOn(w, timeouts, pieces, calls)
    ensures var u := Receive(w, remaining, timeouts, pieces, calls);
            u.pieces == pieces && u.calls == calls + 1 && Accepted(u) == if Arrives(w.recv(calls)) then calls else calls + 1
  {}

  lemma GoesHere(w: World, remaining: nat, timeouts: nat, pieces: seq<seq<byte>>, calls: nat)
      returns (left: nat, silences: nat, more: seq<seq<byte>>)
    requires timeouts < MAX_TIMEOUTS && remaining > 0 && GoesOn(w, timeouts, pieces, calls)
    ensures silences < MAX_TIMEOUTS
    ensures Receive(w, remaining, timeouts, pieces, calls) == Receive(w, left, silences, more, calls + 1)
    ensures if w.recv(calls) == Timeout then left == remaining && more == pieces && silences > timeouts
            else left == remaining - |Taken(w.recv(calls).bytes, remaining)| < remaining
                 && more == pieces + [Taken(w.recv(calls).bytes, remaining)]
  {
    if w.recv(calls) == Timeout {
      left, silences, more := remaining, timeouts + 1, pieces;
    } else {
      var piece := Taken(w.recv(calls).bytes, remaining);
      left, silences, more := remaining - |piece|, 0, pieces + [piece];
    }
  }

  lemma {:induction false} LoopWritesBrought(w: World, contentLen: nat, remaining: nat, timeouts: nat,
      pieces: seq<seq<byte>>, calls: nat, u: Upload)
    requires timeouts < MAX_TIMEOUTS && Join(pieces) == Brought(w, calls) && remaining + |Join(pieces)| == contentLen
    requires u == Receive(w, remaining, timeouts, pieces, calls) && Fitting(w, contentLen, u.calls)
    ensures Join(u.pieces) == Brought(w, Accepted(u))
    decreases remaining, MAX_TIMEOUTS - timeouts
  {
    if remaining == 0 {
    } else if !GoesOn(w, timeouts, pieces, calls) {
      StopsHere(w, remaining, timeouts, pieces, calls);
      if !Arrives(w.recv(calls)) { NothingBrought(w, calls); }
    } else {
      LoopEndedBy(w, remaining, timeouts, pieces, calls);
      assert FitsRequest(w, contentLen, calls);
      if w.recv(calls) == Timeout {
        NothingBrought(w, calls);
      } else {
        PieceBrought(w, contentLen, remaining, pieces, calls);
      }
      var left, silences, more := GoesHere(w, remaining, timeouts, pieces, calls);
      LoopWritesBrought(w, contentLen, left, silences, more, calls + 1, u);
    }
  }

  /** What has been written is, byte for byte and in order, what the client sent in the receives that were
      accepted. */
  lemma WritesWhatWasSent(w: World, contentLen: nat)
    requires Fitting(w, contentLen, Whole(w, contentLen).calls)
    ensures var u := Whole(w, contentLen); Join(u.pieces) == Brought(w, Accepted(u))
  {
    LoopWritesBrought(w, contentLen, contentLen, 0, [], 0, Whole(w, contentLen));
  }

  // ---------------------------------------------------------------- the account of an upload

  /** What the calls so far add up to: sessions opened and closed, replies, boot selections tried, and
      the bytes received, hashed and written. */
  datatype Account = Account(hashOpened: nat, hashClosed: nat, otaOpened: nat, otaClosed: nat,
                             replies: seq<nat>, selections: nat,
                             received: seq<byte>, hashed: seq<byte>, written: seq<byte>)

  function Add(a: Account, c: Call): Account {
    match c
    case HashSetup(ok) => a.(hashOpened := a.hashOpened + if ok then 1 else 0)
    case HashUpdate(piece, ok) => a.(hashed := if ok then a.hashed + piece else a.hashed)
    case HashFinish(_) => a.(hashClosed := a.hashClosed + 1)
    case HashAbort => a.(hashClosed := a.hashClosed + 1)
    case OtaBegin(ok) => a.(otaOpened := a.otaOpened + if ok then 1 else 0)
    case OtaWrite(piece, ok) => a.(written := if ok then a.written + piece else a.written)
    case OtaEnd(_) => a.(otaClosed := a.otaClosed + 1)
    case OtaAbort => a.(otaClosed := a.otaClosed + 1)
    case SetBoot(_) => a.(selections := a.selections + 1)
    case Received(piece) => a.(received := a.received + piece)
    case Reply(status) => a.(replies := a.replies + [status])
  }

  function AccountOf(trace: seq<Call>): Account {
    if trace == [] then Account(0, 0, 0, 0, [], 0, [], [], [])
    else Add(AccountOf(trace[..|trace| - 1]), trace[|trace| - 1])
  }

  method Do(trace: seq<Call>, c: Call) returns (longer: seq<Call>)
    ensures longer == trace + [c] && AccountOf(longer) == Add(AccountOf(trace), c)
  {
    longer := trace + [c];
    assert longer[..|trace|] == trace;
  }

  /** While the body comes in: both sessions open, nothing answered, every byte received hashed and written. */
  function Underway(body: seq<byte>): Account {
    Account(1, 0, 1, 0, [], 0, body, body, body)
  }

  /** The k-th piece: hashed, then written if the hash took it. */
  method TakePiece(w: World, k: nat, piece: seq<byte>, before: seq<Call>) returns (trace: seq<Call>)
    ensures var a := AccountOf(before);
            AccountOf(trace) == a.(received := a.received + piece,
                                   hashed := if w.update(k) then a.hashed + piece else a.hashed,
                                   written := if w.update(k) && w.write(k) then a.written + piece else a.written)
  {
    trace := Do(before, Received(piece));
    trace := Do(trace, HashUpdate(piece, w.update(k)));
    if w.update(k) {
      trace := Do(trace, OtaWrite(piece, w.write(k)));
    }
  }

  /** The receive loop. */
  method ReceiveBody(w: World, contentLen: nat, before: seq<Call>) returns (u: Upload, result: Status, trace: seq<Call>)
    requires AccountOf(before) == Underway([])
    ensures u == Whole(w, contentLen)
    ensures result == if u.exit == WriteFailed then FAIL else OK
    ensures var a := AccountOf(trace); a == Underway(Join(u.pieces)).(received := a.received, hashed := a.hashed)
    ensures u.exit == Complete ==> AccountOf(trace) == Underway(Join(u.pieces))
  {
    var remaining: nat, timeouts: nat, pieces: seq<seq<byte>>, calls: nat := contentLen, 0, [], 0;
    result, trace := OK, before;
    while remaining > 0
      invariant timeouts < MAX_TIMEOUTS && result == OK
      invariant Receive(w, remaining, timeouts, pieces, calls) == Whole(w, contentLen)
      invariant AccountOf(trace) == Underway(Join(pieces))
      decreases remaining, MAX_TIMEOUTS - timeouts
    {
      var answer := w.recv(calls);
      calls := calls + 1;
      if answer == Timeout {
        timeouts := timeouts + 1;
        if timeouts < MAX_TIMEOUTS {
          continue;
        }
        return Upload(TimedOut, pieces, calls), result, trace;
      }
      if answer == Gone || answer.bytes == [] {
        return Upload(Disconnected, pieces, calls), result, trace;
      }
      timeouts := 0;
      var piece := Taken(answer.bytes, remaining);
      trace := TakePiece(w, |pieces|, piece, trace);
      if !w.update(|pieces|) {
        return Upload(HashFailed, pieces, calls), result, trace;
      }
      if !w.write(|pieces|) {
        return Upload(WriteFailed, pieces, calls), FAIL, trace;
      }
      JoinAppend(pieces, piece);
      pieces, remaining := pieces + [piece], remaining - |piece|;
    }
    return Upload(Complete, pieces, calls), result, trace;
  }

  // ---------------------------------------------------------------- the whole upload

  /** The hash of the written body is that of the request header. */
  predicate Matches(w: World, body: seq<byte>, expected: seq<byte>) {
    w.finish && |w.digest(body)| == DIGEST_LEN && w.digest(body) == expected
  }

  /** The body arrived whole, was written, and is what the header announced. */
  predicate Verified(w: World, contentLen: nat, expected: seq<byte>) {
    var u := Whole(w, contentLen);
    w.setup && w.begin && u.exit == Complete && Matches(w, Join(u.pieces), expected)
  }

  function Checked(body: seq<byte>, otaClosed: nat, reply: nat, selections: nat): Account {
    Account(1, 1, 1, otaClosed, [reply], selections, body, body, body)
  }

  /** The status of the reply to a complete body. */
  function Verdict(w: World, body: seq<byte>, expected: seq<byte>): nat {
    if !w.finish || |w.digest(body)| != DIGEST_LEN then 500
    else if w.digest(body) != expected || !w.end then 422
    else if !w.boot then 500
    else 200
  }

  /** The status of the reply to an upload. */
  function Answer(w: World, contentLen: nat, expected: seq<byte>): nat {
    var u := Whole(w, contentLen);
    if !w.setup || !w.begin then 500
    else match u.exit
      case TimedOut => 408
      case Disconnected => 400
      case HashFailed => 500
      case WriteFailed => 422
      case Complete => Verdict(w, Join(u.pieces), expected)
  }

  /** What follows the loop once the body is complete. */
  method CheckAndSelect(w: World, body: seq<byte>, expected: seq<byte>, before: seq<Call>)
      returns (result: Status, restartRequired: bool, otaActive: bool, trace: seq<Call>)
    requires AccountOf(before) == Underway(body)
    ensures restartRequired <==> Matches(w, body, expected) && w.end && w.boot
    ensures result == FAIL <==> Matches(w, body, expected) && !(w.end && w.boot)
    ensures otaActive <==> !Matches(w, body, expected)
    ensures AccountOf(trace) ==
              Checked(body, if otaActive then 0 else 1, Verdict(w, body, expected),
                      if Matches(w, body, expected) && w.end then 1 else 0)
  {
    result, restartRequired, otaActive := OK, false, true;
    trace := Do(before, HashFinish(w.finish));
    var actual := w.digest(body);
    if !w.finish || |actual| != DIGEST_LEN {
      trace := Do(trace, Reply(500));
      return;
    }
    if actual != expected {
      trace := Do(trace, Reply(422));
      return;
    }
    trace := Do(trace, OtaEnd(w.end));
    otaActive := false;
    if !w.end {
      trace := Do(trace, Reply(422));
      return FAIL, false, false, trace;
    }
    trace := Do(trace, SetBoot(w.boot));
    if !w.boot {
      trace := Do(trace, Reply(500));
      return FAIL, false, false, trace;
    }
    trace := Do(trace, Reply(200));
    return OK, true, false, trace;
  }

  /** The cleanup all exits share. */
  method CleanUp(hashActive: bool, otaActive: bool, before: seq<Call>) returns (trace: seq<Call>)
    ensures var a := AccountOf(before);
            AccountOf(trace) == a.(hashClosed := a.hashClosed + (if hashActive then 1 else 0),
                                   otaClosed := a.otaClosed + if otaActive then 1 else 0)
  {
    trace := before;
    if hashActive {
      trace := Do(trace, HashAbort);
    }
    if otaActive {
      trace := Do(trace, OtaAbort);
    }
  }

  /** What every upload leaves behind: each session it opened is closed, once; one reply; a boot
      selection tried exactly if the body was verified and accepted, and then of the whole body. */
  predicate Settled(a: Account, w: World, contentLen: nat, expected: seq<byte>) {
    && a.hashOpened == a.hashClosed <= 1 && a.otaOpened == a.otaClosed <= 1
    && a.replies == [Answer(w, contentLen, expected)]
    && a.selections == (if Verified(w, contentLen, expected) && w.end then 1 else 0)
    && (a.selections > 0 ==> a.written == a.received && |a.written| == contentLen && w.digest(a.written) == expected)
    && |a.written| <= contentLen
    && (w.setup && w.begin && Fitting(w, contentLen, Whole(w, contentLen).calls) ==>
          a.written == Brought(w, Accepted(Whole(w, contentLen))))
  }

  /** ota_flash_receive: success selects the image; the result is a failure only in the cases named. */
  method FlashReceive(w: World, contentLen: nat, expected: seq<byte>)
      returns (result: Status, restartRequired: bool, trace: seq<Call>)
    ensures restartRequired <==> Verified(w, contentLen, expected) && w.end && w.boot
    ensures result == FAIL <==> FailsOpenly(w, contentLen, expected)
    ensures Settled(AccountOf(trace), w, contentLen, expected)
  {
    trace, result, restartRequired := [], FAIL, false;
    var hashActive, otaActive := false, false;
    label cleanup: {
      trace := Do(trace, HashSetup(w.setup));
      if !w.setup {
        trace := Do(trace, Reply(500));
        break cleanup;
      }
      hashActive := true;
      trace := Do(trace, OtaBegin(w.begin));
      if !w.begin {
        trace := Do(trace, Reply(500));
        break cleanup;
      }
      otaActive := true;
      var u;
      u, result, trace := ReceiveBody(w, contentLen, trace);
      WrittenAndRemaining(w, contentLen, 0, [], 0);
      if Fitting(w, contentLen, u.calls) {
        WritesWhatWasSent(w, contentLen);
      }
      if u.exit != Complete {
        var status := match u.exit case TimedOut => 408 case Disconnected => 400 case HashFailed => 500 case _ => 422;
        trace := Do(trace, Reply(status));
        break cleanup;
      }
      hashActive := false;
      result, restartRequired, otaActive, trace := CheckAndSelect(w, Join(u.pieces), expected, trace);
    }
    trace := CleanUp(hashActive, otaActive, trace);
  }

  /** Where the result of an upload that does not succeed is an error. In every other failing case it
      still holds the last flash call's ESP_OK. */
  predicate FailsOpenly(w: World, contentLen: nat, expected: seq<byte>) {
    || !w.setup || !w.begin || Whole(w, contentLen).exit == WriteFailed
    || (Verified(w, contentLen, expected) && !(w.end && w.boot))
  }

  /** The client is told of success exactly when the image was selected. */
  lemma OnlySuccessIsReported(w: World, contentLen: nat, expected: seq<byte>)
    ensures Answer(w, contentLen, expected) == 200 <==> Verified(w, contentLen, expected) && w.end && w.boot
  {}

  /** What each status says of the client, the library and the body: an upload cut short by silence, by an
      absence, by the flash or a wrong body, and everything that is not the client's doing. */
  lemma RepliesExactly(w: World, contentLen: nat, expected: seq<byte>)
    ensures var u, status := Whole(w, contentLen), Answer(w, contentLen, expected);
            var open, short, last, n := w.setup && w.begin, |Join(u.pieces)| < contentLen, LastAnswer(w, u), |u.pieces|;
            var hashed := !short && w.finish && |w.digest(Join(u.pieces))| == 32;
            var right := hashed && w.digest(Join(u.pieces)) == expected;
            && (status == 408 <==> open && short && last == Timeout)
            && (status == 400 <==> open && short && Absent(last))
            && (status == 422 <==>
                  open && ((short && Arrives(last) && w.update(n) && !w.write(n)) || (hashed && !(right && w.end))))
            && (status == 200 <==> open && right && w.end && w.boot)
            && (status == 500 <==>
                  || !open || (short && Arrives(last) && !w.update(n))
                  || (!short && !hashed) || (right && w.end && !w.boot))
  {
    EndsExactly(w, contentLen);
  }

  /** The uploads that fail with a result of ESP_OK: every one cut short by the client or the hash, and
      every one whose hash does not match. */
  lemma QuietFailures(w: World, contentLen: nat, expected: seq<byte>)
    ensures var u := Whole(w, contentLen);
            !FailsOpenly(w, contentLen, expected) && !(Verified(w, contentLen, expected) && w.end && w.boot) <==>
            && w.setup && w.begin
            && (u.exit == TimedOut || u.exit == Disconnected || u.exit == HashFailed
                || (u.exit == Complete && !Matches(w, Join(u.pieces), expected)))
  {}

  /** A client that falls silent is such a case: its upload is given up after three receives, its body
      unread, with a result of ESP_OK. */
  lemma SilentClient(w: World, contentLen: nat, expected: seq<byte>)
    requires w.setup && w.begin && contentLen > 0 && w.recv(0) == w.recv(1) == w.recv(2) == Timeout
    ensures Whole(w, contentLen) == Upload(TimedOut, [], 3) && !FailsOpenly(w, contentLen, expected)
  {
    assert Whole(w, contentLen) == Receive(w, contentLen, 1, [], 1) == Receive(w, contentLen, 2, [], 2);
  }
}
