/** The /write worker of main/http_stream.c: what it hands to the parser of a body, and how it leaves. */
module HttpWrite {
  import opened Nmea
  import opened Basics
  import opened Protocol
  import opened Uploads
  import opened MockRoute
  import opened RouteUploads

  const WRITE_BUFFER := 512

  /** Refused: another override is active. Waiting: the answers end while the body is incomplete; there
      is no limit to the timeouts. */
  datatype Outcome = Refused | Waiting | Accepted | Failed

  function Piece(bytes: seq<byte>, remaining: nat): (piece: seq<byte>)
    ensures |piece| <= remaining && |piece| <= WRITE_BUFFER
    ensures remaining > 0 && bytes != [] ==> piece != []
    ensures piece <= bytes && (|bytes| <= remaining && |bytes| <= 512 ==> piece == bytes)
  {
    var n := if remaining < WRITE_BUFFER then remaining else WRITE_BUFFER;
    if |bytes| < n then bytes else bytes[..n]
  }

  /** The first so many bytes that the answers bring, up to the client's absence. */
  function Arriving(answers: seq<Recv>, remaining: nat): (body: seq<byte>)
    ensures |body| <= remaining
  {
    if remaining == 0 || answers == [] || Absent(answers[0]) then []
    else if answers[0] == Timeout then Arriving(answers[1..], remaining)
    else
      var piece := Piece(answers[0].bytes, remaining);
      piece + Arriving(answers[1..], remaining - |piece|)
  }

  /** The bytes of all the answers before the first absence, joined. */
  function Carried(answers: seq<Recv>): seq<byte> {
    if answers == [] || Absent(answers[0]) then []
    else (if answers[0].Data? then answers[0].bytes else []) + Carried(answers[1..])
  }

  /** No answer exceeds what the loop asks for: the rest of the body, and 512 bytes. This is what
      httpd_req_recv keeps to. */
  predicate Fitting(answers: seq<Recv>, remaining: nat) {
    if remaining == 0 || answers == [] || Absent(answers[0]) then true
    else if answers[0] == Timeout then Fitting(answers[1..], remaining)
    else
      && |answers[0].bytes| <= remaining && |answers[0].bytes| <= 512
      && Fitting(answers[1..], remaining - |answers[0].bytes|)
  }

  predicate Small(answers: seq<Recv>) {
    forall k :: 0 <= k < |answers| && answers[k].Data? ==> |answers[k].bytes| <= 512
  }

  /** So it is when no answer has more than 512 bytes and all of them together no more than the body. */
  lemma {:induction false} SmallIsFitting(answers: seq<Recv>, remaining: nat)
    requires Small(answers) && |Carried(answers)| <= remaining
    ensures Fitting(answers, remaining)
    decreases |answers|
  {
    if remaining == 0 || answers == [] || Absent(answers[0]) {
    } else if answers[0] == Timeout {
      SmallIsFitting(answers[1..], remaining);
    } else {
      SmallIsFitting(answers[1..], remaining - |answers[0].bytes|);
    }
  }

  /** The feeds that the loop makes of the answers. */
  function Calls(answers: seq<Recv>, remaining: nat): seq<Action> {
    if remaining == 0 || answers == [] || Absent(answers[0]) then []
    else if answers[0] == Timeout then Calls(answers[1..], remaining)
    else
      var piece := Piece(answers[0].bytes, remaining);
      [OverrideFeed(piece)] + Calls(answers[1..], remaining - |piece|)
  }

  /** The answer brings bytes that are still wanted. */
  predicate Brings(answers: seq<Recv>, remaining: nat) {
    remaining > 0 && answers != [] && answers[0].Data? && answers[0].bytes != []
  }

  lemma BroughtFirst(answers: seq<Recv>, remaining: nat) returns (piece: seq<byte>, left: nat)
    requires Brings(answers, remaining)
    ensures Calls(answers, remaining) == [OverrideFeed(piece)] + Calls(answers[1..], left)
    ensures Arriving(answers, remaining) == piece + Arriving(answers[1..], left)
    ensures piece == Piece(answers[0].bytes, remaining) && left == remaining - |piece|
  {
    piece := Piece(answers[0].bytes, remaining);
    left := remaining - |piece|;
  }

  lemma NotBrought(answers: seq<Recv>, remaining: nat)
    requires !Brings(answers, remaining)
    ensures if remaining > 0 && answers != [] && answers[0] == Timeout
            then Calls(answers, remaining) == Calls(answers[1..], remaining)
                 && Arriving(answers, remaining) == Arriving(answers[1..], remaining)
            else Calls(answers, remaining) == [] && Arriving(answers, remaining) == []
  {}

  /** They carry the bytes that arrive. */
  lemma {:induction false} CallsCarryBody(answers: seq<Recv>, remaining: nat)
    ensures Uploaded(Calls(answers, remaining)) == Arriving(answers, remaining)
    decreases |answers|
  {
    if Brings(answers, remaining) {
      var piece, left := BroughtFirst(answers, remaining);
      CallsCarryBody(answers[1..], left);
      FirstCarries(piece, Calls(answers[1..], left));
    } else {
      NotBrought(answers, remaining);
      if answers != [] {
        CallsCarryBody(answers[1..], remaining);
      }
    }
  }

  /** What arrives is what the answers carry, byte for byte, up to the announced length. */
  lemma {:induction false} ArrivingIsCarried(answers: seq<Recv>, remaining: nat)
    requires Fitting(answers, remaining)
    ensures Arriving(answers, remaining) <= Carried(answers)
    ensures |Arriving(answers, remaining)| == Min(|Carried(answers)|, remaining)
    ensures |Carried(answers)| <= remaining ==> Arriving(answers, remaining) == Carried(answers)
    decreases |answers|
  {
    if Brings(answers, remaining) {
      var piece, left := BroughtFirst(answers, remaining);
      FittingFirst(answers, remaining, piece, left);
      ArrivingIsCarried(answers[1..], left);
      SamePrefix(piece, Arriving(answers[1..], left), Carried(answers[1..]));
    } else {
      NotBrought(answers, remaining);
      if remaining > 0 && answers != [] && answers[0] == Timeout {
        ArrivingIsCarried(answers[1..], remaining);
        NothingBefore(Carried(answers[1..]));
      }
    }
  }

  lemma FittingFirst(answers: seq<Recv>, remaining: nat, piece: seq<byte>, left: nat)
    requires Brings(answers, remaining) && Fitting(answers, remaining)
    requires piece == Piece(answers[0].bytes, remaining) && left == remaining - |piece|
    ensures piece == answers[0].bytes && Fitting(answers[1..], left) && Carried(answers) == piece + Carried(answers[1..])
  {}

  lemma SamePrefix(p: seq<byte>, a: seq<byte>, b: seq<byte>)
    requires a <= b
    ensures p + a <= p + b
  {}

  lemma FirstCarries(piece: seq<byte>, calls: seq<Action>)
    ensures Uploaded([OverrideFeed(piece)] + calls) == piece + Uploaded(calls)
  {
    UploadedConcat([OverrideFeed(piece)], calls);
    UploadedOne(OverrideFeed(piece));
  }

  predicate OnlyFeeds(acts: seq<Action>) {
    forall i :: 0 <= i < |acts| ==> acts[i].OverrideFeed?
  }

  /** What the calls made so far come to: an override begun, the pieces fed, and nothing that ends it. */
  predicate Feeding(made: seq<Action>, fed: seq<byte>) {
    made != [] && made[0] == Begin && OnlyFeeds(made[1..]) && OpenThroughout(made) && Uploaded(made[1..]) == fed
  }

  lemma FeedsOn(made: seq<Action>, fed: seq<byte>, piece: seq<byte>)
    requires Feeding(made, fed)
    ensures Feeding(made + [OverrideFeed(piece)], fed + piece)
  {
    var more := made + [OverrideFeed(piece)];
    assert more[1..] == made[1..] + [OverrideFeed(piece)];
    assert more[1..][..|made| - 1] == made[1..];
  }

  lemma FeedsFirst()
    ensures Feeding([Begin], [])
  {}

  /** The calls and bytes so far, with those that the answers from the index-th on will bring, are those of
      all answers. */
  predicate OnTrack(made: seq<Action>, fed: seq<byte>, answers: seq<Recv>, index: nat, remaining: nat, contentLen: nat)
    requires index <= |answers|
  {
    && fed + Arriving(answers[index..], remaining) == Arriving(answers, contentLen)
    && made + Calls(answers[index..], remaining) == [Begin] + Calls(answers, contentLen)
  }

  /** Nothing more will come. */
  predicate Through(made: seq<Action>, fed: seq<byte>, answers: seq<Recv>, contentLen: nat) {
    fed == Arriving(answers, contentLen) && made == [Begin] + Calls(answers, contentLen)
  }

  lemma TrackStarts(answers: seq<Recv>, contentLen: nat)
    ensures OnTrack([Begin], [], answers, 0, contentLen, contentLen)
  {
    assert answers[0..] == answers;
    NothingBefore(Arriving(answers, contentLen));
  }

  lemma TrackEnds(made: seq<Action>, fed: seq<byte>, answers: seq<Recv>, index: nat, remaining: nat, contentLen: nat)
    requires index <= |answers| && OnTrack(made, fed, answers, index, remaining, contentLen)
    requires remaining == 0 || index == |answers| || Absent(answers[index])
    ensures Through(made, fed, answers, contentLen)
  {
    assert Arriving(answers[index..], remaining) == [] && Calls(answers[index..], remaining) == [];
    assert fed + [] == fed && made + [] == made;
  }

  lemma TrackIsPrefix(made: seq<Action>, fed: seq<byte>, answers: seq<Recv>, index: nat, remaining: nat, contentLen: nat)
    requires index <= |answers| && OnTrack(made, fed, answers, index, remaining, contentLen)
    ensures fed <= Arriving(answers, contentLen) && made <= [Begin] + Calls(answers, contentLen)
  {}

  lemma TrackPauses(made: seq<Action>, fed: seq<byte>, answers: seq<Recv>, index: nat, remaining: nat, contentLen: nat)
    requires index < |answers| && OnTrack(made, fed, answers, index, remaining, contentLen) && answers[index] == Timeout
    ensures OnTrack(made, fed, answers, index + 1, remaining, contentLen)
  {
    assert answers[index..][1..] == answers[index + 1..];
  }

  lemma TrackGoesOn(made: seq<Action>, fed: seq<byte>, answers: seq<Recv>, index: nat, remaining: nat, contentLen: nat)
    requires index < |answers| && OnTrack(made, fed, answers, index, remaining, contentLen)
    requires remaining > 0 && answers[index].Data? && answers[index].bytes != []
    ensures var piece := Piece(answers[index].bytes, remaining);
            OnTrack(made + [OverrideFeed(piece)], fed + piece, answers, index + 1, remaining - |piece|, contentLen)
  {
    var piece := Piece(answers[index].bytes, remaining);
    assert answers[index..][1..] == answers[index + 1..];
    Regroup(fed, piece, Arriving(answers[index + 1..], remaining - |piece|));
    Regroup(made, [OverrideFeed(piece)], Calls(answers[index + 1..], remaining - |piece|));
  }

  lemma OneMoreAnswer(answers: seq<Recv>, n: nat)
    requires n < |answers|
    ensures Leaves(answers[..n + 1]) <==> Leaves(answers[..n]) || Absent(answers[n])
  {
    assert answers[..n + 1] == answers[..n] + [answers[n]];
    if Absent(answers[n]) { assert Absent(answers[..n + 1][n]); }
    if Leaves(answers[..n]) {
      var k :| 0 <= k < n && Absent(answers[..n][k]);
      assert Absent(answers[..n + 1][k]);
    }
  }

  /** The calls without the closing one. */
  function Unclosed(outcome: Outcome, made: seq<Action>): seq<Action> {
    if (outcome == Accepted || outcome == Failed) && made != [] then made[..|made| - 1] else made
  }

  /** Each piece fed so far was taken, and there is a next one, which was not. */
  predicate StopsAtRefusal(made: seq<Action>, answers: seq<Recv>, contentLen: nat, feeds: nat -> bool) {
    0 < |made| <= |Calls(answers, contentLen)| && !feeds(|made| - 1)
  }

  predicate Leaves(answers: seq<Recv>) {
    exists k :: 0 <= k < |answers| && Absent(answers[k])
  }

  /** What write_request_receive has done when its loop is left, before the override is closed. */
  predicate LoopLeft(outcome: Outcome, fed: seq<byte>, made: seq<Action>, answers: seq<Recv>, contentLen: nat,
      feeds: nat -> bool) {
    && Feeding(made, fed) && (forall k :: 0 <= k < |made| - 1 ==> feeds(k))
    && fed <= Arriving(answers, contentLen) && made <= [Begin] + Calls(answers, contentLen)
    && match outcome
       case Refused => false
       case Accepted => |fed| == contentLen && Through(made, fed, answers, contentLen)
       case Waiting => |fed| < contentLen && !Leaves(answers) && Through(made, fed, answers, contentLen)
       case Failed =>
         && |fed| < contentLen
         && (StopsAtRefusal(made, answers, contentLen, feeds) || (Leaves(answers) && Through(made, fed, answers, contentLen)))
  }

  /** Before the loop's next call: every piece so far was taken, and nobody has gone. */
  predicate Going(made: seq<Action>, fed: seq<byte>, answers: seq<Recv>, index: nat, remaining: nat,
      contentLen: nat, feeds: nat -> bool) {
    && index <= |answers| && |fed| + remaining == contentLen
    && Feeding(made, fed) && OnTrack(made, fed, answers, index, remaining, contentLen)
    && (forall k :: 0 <= k < |made| - 1 ==> feeds(k)) && !Leaves(answers[..index])
  }

  lemma LoopBegins(answers: seq<Recv>, contentLen: nat, feeds: nat -> bool)
    ensures Going([Begin], [], answers, 0, contentLen, contentLen, feeds)
  {
    FeedsFirst();
    TrackStarts(answers, contentLen);
  }

  lemma LoopPauses(made: seq<Action>, fed: seq<byte>, answers: seq<Recv>, index: nat, remaining: nat,
      contentLen: nat, feeds: nat -> bool)
    requires Going(made, fed, answers, index, remaining, contentLen, feeds) && index < |answers| && answers[index] == Timeout
    ensures Going(made, fed, answers, index + 1, remaining, contentLen, feeds)
  {
    OneMoreAnswer(answers, index);
    TrackPauses(made, fed, answers, index, remaining, contentLen);
  }

  lemma LoopFeeds(made: seq<Action>, fed: seq<byte>, answers: seq<Recv>, index: nat, remaining: nat,
      contentLen: nat, feeds: nat -> bool)
    requires Going(made, fed, answers, index, remaining, contentLen, feeds) && index < |answers| && remaining > 0
    requires answers[index].Data? && answers[index].bytes != [] && feeds(|made| - 1)
    ensures var piece := Piece(answers[index].bytes, remaining);
            Going(made + [OverrideFeed(piece)], fed + piece, answers, index + 1, remaining - |piece|, contentLen, feeds)
  {
    OneMoreAnswer(answers, index);
    TrackGoesOn(made, fed, answers, index, remaining, contentLen);
    FeedsOn(made, fed, Piece(answers[index].bytes, remaining));
  }

  /** The loop's next piece is not taken. */
  lemma LoopRefuses(made: seq<Action>, fed: seq<byte>, answers: seq<Recv>, index: nat, remaining: nat,
      contentLen: nat, feeds: nat -> bool)
    requires Going(made, fed, answers, index, remaining, contentLen, feeds) && index < |answers| && remaining > 0
    requires answers[index].Data? && answers[index].bytes != [] && !feeds(|made| - 1)
    ensures LoopLeft(Failed, fed, made, answers, contentLen, feeds)
  {
    var piece := Piece(answers[index].bytes, remaining);
    TrackGoesOn(made, fed, answers, index, remaining, contentLen);
    TrackIsPrefix(made + [OverrideFeed(piece)], fed + piece, answers, index + 1, remaining - |piece|, contentLen);
    TrackIsPrefix(made, fed, answers, index, remaining, contentLen);
  }

  lemma LoopEnds(made: seq<Action>, fed: seq<byte>, answers: seq<Recv>, index: nat, remaining: nat,
      contentLen: nat, feeds: nat -> bool)
    requires Going(made, fed, answers, index, remaining, contentLen, feeds)
    requires remaining == 0 || index == |answers| || Absent(answers[index])
    ensures var outcome := if remaining == 0 then Accepted else if index == |answers| then Waiting else Failed;
            LoopLeft(outcome, fed, made, answers, contentLen, feeds)
  {
    TrackIsPrefix(made, fed, answers, index, remaining, contentLen);
    TrackEnds(made, fed, answers, index, remaining, contentLen);
    if index == |answers| { assert answers[..index] == answers; }
  }

  /** The loop of write_request_receive. */
  method FeedBody(contentLen: nat, answers: seq<Recv>, feeds: nat -> bool)
      returns (outcome: Outcome, fed: seq<byte>, made: seq<Action>)
    ensures LoopLeft(outcome, fed, made, answers, contentLen, feeds)
  {
    fed, made := [], [Begin];
    LoopBegins(answers, contentLen, feeds);
    var remaining: nat, index: nat := contentLen, 0;
    while remaining > 0
      invariant Going(made, fed, answers, index, remaining, contentLen, feeds)
      decreases |answers| - index
    {
      if index == |answers| {
        LoopEnds(made, fed, answers, index, remaining, contentLen, feeds);
        return Waiting, fed, made;
      }
      var answer := answers[index];
      if answer == Timeout {
        LoopPauses(made, fed, answers, index, remaining, contentLen, feeds);
        index := index + 1;
        continue;
      }
      if Absent(answer) {
        LoopEnds(made, fed, answers, index, remaining, contentLen, feeds);
        return Failed, fed, made;
      }
      var piece := Piece(answer.bytes, remaining);
      if !feeds(|made| - 1) {
        LoopRefuses(made, fed, answers, index, remaining, contentLen, feeds);
        return Failed, fed, made;
      }
      LoopFeeds(made, fed, answers, index, remaining, contentLen, feeds);
      index, made, fed, remaining := index + 1, made + [OverrideFeed(piece)], fed + piece, remaining - |piece|;
    }
    LoopEnds(made, fed, answers, index, remaining, contentLen, feeds);
    return Accepted, fed, made;
  }

  /** write_request_receive, by caller id. begins says whether the override could begin, feeds(k)
      whether the k-th piece is taken by the parser; `made` are the calls that took effect. */
  method WriteRequestReceive(id: nat, contentLen: nat, begins: bool, answers: seq<Recv>, feeds: nat -> bool)
      returns (outcome: Outcome, fed: seq<byte>, made: seq<Action>)
    ensures outcome == Refused <==> !begins
    ensures outcome == Refused ==> fed == [] && made == []
    ensures outcome == Waiting ==> Feeding(made, fed)
    ensures outcome == Accepted || outcome == Failed ==>
              made != [] && made[|made| - 1] == EndClose(id) && Feeding(made[..|made| - 1], fed)
    ensures outcome == Accepted ==> |fed| == contentLen
    ensures outcome == Waiting || outcome == Failed ==> |fed| < contentLen
    ensures begins ==> LoopLeft(outcome, fed, Unclosed(outcome, made), answers, contentLen, feeds)
    ensures begins ==> fed <= Arriving(answers, contentLen)
    ensures begins ==> (if outcome == Waiting then made else made[..|made| - 1]) <= [Begin] + Calls(answers, contentLen)
    ensures begins && (forall k :: feeds(k)) ==>
              && Through(if outcome == Waiting then made else made[..|made| - 1], fed, answers, contentLen)
              && (outcome == Accepted <==> |Arriving(answers, contentLen)| == contentLen)
              && (outcome == Failed ==> Leaves(answers))
  {
    if !begins {
      return Refused, [], [];
    }
    outcome, fed, made := FeedBody(contentLen, answers, feeds);
    if outcome != Waiting {
      assert (made + [EndClose(id)])[..|made|] == made;
      made := made + [EndClose(id)];
    }
  }

  /** Whatever the other tasks do between the worker's calls, what its calls fed is what the parser gets
      from the beginning of the override on: the bytes of the session's one segment, or of the two that the
      init task's reset makes of it, joined. */
  lemma MadeIsParsed(acts: seq<Action>, s: State, more: seq<Action>, t: State, made: seq<Action>, fed: seq<byte>)
    requires After(acts) == Some(s) && !s.active && After(acts + [Begin] + more) == Some(t) && OpenThroughout(more)
    requires Feeding(made, fed) && Feeds(more) == made[1..]
    ensures t.active && t.gen == s.gen + 1 && |t.segs| == |s.segs| + 1 + Resets(more) <= |s.segs| + 2
    ensures Stretch(t.segs, |s.segs|) == fed
  {
    SessionIsFedWhole(acts, s, more, t);
    FeedsUpload(more);
  }

  /** So is the body as it arrives: in a run in which the worker feeds what its loop makes of the answers,
      each feed finds the override active and not closing, and is therefore taken, and the parser gets
      the bytes that arrived. */
  lemma BodyIsParsed(acts: seq<Action>, s: State, more: seq<Action>, t: State, answers: seq<Recv>, contentLen: nat, n: nat)
      returns (u: State)
    requires After(acts) == Some(s) && !s.active && After(acts + [Begin] + more) == Some(t) && OpenThroughout(more)
    requires Feeds(more) == Calls(answers, contentLen) && n <= |more|
    ensures After(acts + [Begin] + more[..n]) == Some(u) && u.active && !u.closing
    ensures t.active && t.gen == s.gen + 1 && |t.segs| == |s.segs| + 1 + Resets(more) <= |s.segs| + 2
    ensures Stretch(t.segs, |s.segs|) == Arriving(answers, contentLen)
  {
    u := NextFeedIsTaken(acts, s, more, t, n);
    SessionIsFedWhole(acts, s, more, t);
    FeedsUpload(more);
    CallsCarryBody(answers, contentLen);
  }

  /** So with a route: if the client sends its chunks, in any cut and with any pauses, the parser gives its
      points' candidates, whatever the other tasks do; a reset of the init task costs the one point that it
      falls strictly inside. */
  lemma WrittenRouteIsParsed(acts: seq<Action>, s: State, more: seq<Action>, t: State, answers: seq<Recv>, points: seq<Point>)
      returns (i: nat, m: nat)
    requires After(acts) == Some(s) && !s.active && After(acts + [Begin] + more) == Some(t) && OpenThroughout(more)
    requires AllGood(points) && Carried(answers) == Flat(Chunks(points)) && Small(answers)
    requires Feeds(more) == Calls(answers, |Flat(Chunks(points))|)
    ensures Resets(more) <= 1 && t.active && t.gen == s.gen + 1
    ensures Arrived(t, |s.segs|, points, Resets(more) == 1, i, m)
  {
    SmallIsFitting(answers, |Flat(Chunks(points))|);
    ArrivingIsCarried(answers, |Flat(Chunks(points))|);
    FeedsUpload(more);
    CallsCarryBody(answers, |Flat(Chunks(points))|);
    i, m := RouteUpload(acts, s, more, t, points);
  }

  /** How the bytes are cut into answers, and where the client pauses, makes no difference. */
  lemma {:induction false} PausesDoNotMatter(answers: seq<Recv>, k: nat, remaining: nat)
    requires k <= |answers|
    ensures Arriving(answers[..k] + [Timeout] + answers[k..], remaining) == Arriving(answers, remaining)
    decreases k
  {
    var paused := answers[..k] + [Timeout] + answers[k..];
    if k == 0 {
      assert paused[1..] == answers;
    } else if remaining > 0 && !Absent(answers[0]) {
      var rest := answers[1..];
      assert paused[1..] == rest[..k - 1] + [Timeout] + rest[k - 1..];
      var left := if answers[0] == Timeout then remaining else remaining - |Piece(answers[0].bytes, remaining)|;
      PausesDoNotMatter(rest, k - 1, left);
    }
  }
}
