/** The HTTP side of main/ota_update.c: the request header, the guards before an upload is queued, the
    worker behind the queue, and the scheduled reboot. */
module OtaServer {
  import opened Nmea
  import Ota

  const HEX_LEN := 2 * Ota.DIGEST_LEN

  // ---------------------------------------------------------------- the digest header

  function HexOf(c: char): (v: Option<nat>)
    ensures v.Some? ==> v.value < 16
  {
    if '0' <= c <= '9' then Some((c - '0') as nat)
    else if 'A' <= c <= 'F' then Some((c - 'A') as nat + 10)
    else if 'a' <= c <= 'f' then Some((c - 'a') as nat + 10)
    else None
  }

  /** The v-th digit, in lower or in upper case. */
  lemma HexExact(c: char, v: nat)
    ensures HexOf(c) == Some(v) <==> v < 16 && (c == LOWER[v] || c == UPPER[v])
  {}

  predicate AllHex(h: string) {
    forall i :: 0 <= i < |h| ==> HexOf(h[i]).Some?
  }

  /** d is what the 64 hexadecimal digits h say, two to a byte. */
  predicate Says(h: string, d: seq<byte>) {
    && |h| == HEX_LEN && |d| == Ota.DIGEST_LEN && AllHex(h)
    && forall i :: 0 <= i < |d| ==> d[i] == 16 * HexOf(h[2 * i]).value + HexOf(h[2 * i + 1]).value
  }

  method ParseDigest(header: Option<string>) returns (digest: Option<seq<byte>>)
    ensures digest.Some? <==> header.Some? && |header.value| == 64 && AllHex(header.value)
    ensures digest.Some? ==> |digest.value| == 32 && Says(header.value, digest.value)
  {
    if header.None? || |header.value| != HEX_LEN {
      return None;
    }
    var h, d := header.value, [];
    for index := 0 to Ota.DIGEST_LEN
      invariant |d| == index && AllHex(h[..2 * index])
      invariant forall i :: 0 <= i < index ==>
                  && HexOf(h[2 * i]).Some? && HexOf(h[2 * i + 1]).Some?
                  && d[i] == 16 * HexOf(h[2 * i]).value + HexOf(h[2 * i + 1]).value
    {
      var high, low := HexOf(h[2 * index]), HexOf(h[2 * index + 1]);
      if high.None? || low.None? {
        assert !AllHex(h);
        return None;
      }
      d := d + [16 * high.value + low.value];
      assert h[..2 * index + 2] == h[..2 * index] + [h[2 * index], h[2 * index + 1]];
    }
    assert h[..HEX_LEN] == h;
    return Some(d);
  }

  function Lower(v: nat): (c: char)
    requires v < 16
    ensures HexOf(c) == Some(v)
  {
    if v < 10 then '0' + v as char else 'a' + (v - 10) as char
  }

  /** The lower-case digits a client sends. */
  function HexDigest(d: seq<byte>): (h: string)
    ensures |h| == 2 * |d|
  {
    if d == [] then "" else HexDigest(d[..|d| - 1]) + [Lower(d[|d| - 1] / 16), Lower(d[|d| - 1] % 16)]
  }

  lemma {:induction false} HexDigestAt(d: seq<byte>, i: nat)
    requires i < |d|
    ensures HexDigest(d)[2 * i] == Lower(d[i] / 16) && HexDigest(d)[2 * i + 1] == Lower(d[i] % 16)
  {
    if i >= |d| - 1 {
    } else {
      HexDigestAt(d[..|d| - 1], i);
    }
  }

  lemma DigitsRead(d: seq<byte>)
    ensures forall i :: 0 <= i < |d| ==>
              HexOf(HexDigest(d)[2 * i]) == Some(d[i] / 16) && HexOf(HexDigest(d)[2 * i + 1]) == Some(d[i] % 16)
  {
    forall i: nat | i < |d|
      ensures HexOf(HexDigest(d)[2 * i]) == Some(d[i] / 16) && HexOf(HexDigest(d)[2 * i + 1]) == Some(d[i] % 16)
    {
      HexDigestAt(d, i);
    }
  }

  lemma DigestIsHex(d: seq<byte>)
    ensures AllHex(HexDigest(d))
  {
    DigitsRead(d);
    forall j | 0 <= j < |HexDigest(d)| ensures HexOf(HexDigest(d)[j]).Some? {
      assert j == 2 * (j / 2) || j == 2 * (j / 2) + 1;
    }
  }

  /** Every digest survives the header, and no header says two digests. */
  lemma DigestRoundTrip(d: seq<byte>, e: seq<byte>)
    requires |d| == Ota.DIGEST_LEN
    ensures Says(HexDigest(d), e) <==> e == d
  {
    DigitsRead(d);
    DigestIsHex(d);
    assert forall i :: 0 <= i < |d| ==> d[i] == 16 * (d[i] / 16) + d[i] % 16;
  }

  // ---------------------------------------------------------------- handlers and worker

  /** An upload handed to the worker. */
  datatype Request = Request(contentLen: nat, expected: seq<byte>, slot: nat)

  /** What a client asks for, with what the server and the flash library answer. */
  datatype Post =
    | Flash(contentLen: nat, header: Option<string>, slot: Option<nat>, asyncBegins: bool)
    | RollBack(possible: bool, marked: bool, timerStarts: bool)

  /** The upload's image is selected for the next boot. */
  predicate Selects(w: Ota.World, r: Request) {
    Ota.Verified(w, r.contentLen, r.expected) && w.end && w.boot
  }

  /** The header is 64 hexadecimal digits. */
  predicate Announces(header: Option<string>) {
    header.Some? && |header.value| == HEX_LEN && AllHex(header.value)
  }

  /** An upload that the server lets in when nothing stands against it. */
  predicate Fit(p: Post) {
    && p.Flash? && p.contentLen > 0 && Announces(p.header)
    && p.slot.Some? && p.contentLen <= p.slot.value && p.asyncBegins
  }

  /** A rollback that can be carried out. */
  predicate Effective(p: Post) {
    p.RollBack? && p.possible && p.marked
  }

  predicate RolledBack(posts: seq<Post>) {
    exists k :: 0 <= k < |posts| && Effective(posts[k])
  }

  /** None of the first n posts does anything to an open server. */
  predicate Quiet(posts: seq<Post>, n: nat) {
    n <= |posts| && forall j :: 0 <= j < n ==> !Fit(posts[j]) && !Effective(posts[j])
  }

  /** Post k is let in, when the permit is out and no reboot scheduled: the first that fits, unless a
      rollback precedes it. */
  predicate LetsIn(posts: seq<Post>, k: nat) {
    k < |posts| && Fit(posts[k]) && Quiet(posts, k)
  }

  /** r is the request of post p. */
  predicate IsFor(r: Request, p: Post) {
    && p.Flash? && r.contentLen == p.contentLen && p.slot == Some(r.slot)
    && p.header.Some? && Says(p.header.value, r.expected)
  }

  /** What comes in before and during one upload, and how that upload goes. */
  datatype Round = Round(before: seq<Post>, during: seq<Post>, world: Ota.World, socketOpen: bool, timerStarts: bool)

  /** done[k] is the first fitting upload asked for in round k. */
  predicate Served(rounds: seq<Round>, done: seq<Request>, k: nat)
    requires k < |rounds| && k < |done|
  {
    exists n :: 0 <= n < |rounds[k].before| && LetsIn(rounds[k].before, n) && IsFor(done[k], rounds[k].before[n])
  }

  /** A reboot is scheduled when round n begins: since the start, by a rollback, or by a selected image. */
  predicate Scheduled(start: bool, rounds: seq<Round>, done: seq<Request>, n: nat)
    requires n <= |rounds| && n <= |done|
  {
    || start
    || exists k :: 0 <= k < n &&
         (RolledBack(rounds[k].before) || RolledBack(rounds[k].during) || Selects(rounds[k].world, done[k]))
  }

  class OtaUpdate {
    var confirmationPending: bool
    var restartScheduled: bool
    /** The worker's permit and its queue of one. */
    var workerReady: bool
    var requests: seq<Request>
    ghost var race: Race

    /** The permit is out only while the queue is empty, and no request is queued that could overrun
        its slot. */
    ghost predicate Valid()
      reads this
    {
      && |requests| <= 1 && (workerReady ==> requests == [])
      && forall r :: r in requests ==> 0 < r.contentLen <= r.slot && |r.expected| == Ota.DIGEST_LEN
    }

    /** The fields are those of the reboot race, between two handlers. */
    ghost predicate Raced()
      reads this
    {
      && Bounded(race) && !race.handling
      && race.scheduled == restartScheduled && race.permit == workerReady && race.queued == (requests != [])
    }

    constructor (pending: bool)
      ensures Valid() && confirmationPending == pending && !restartScheduled && !workerReady && requests == []
      ensures Raced() && race == BOOT
    {
      confirmationPending, restartScheduled, workerReady, requests := pending, false, false, [];
      race := BOOT;
    }

    /** ota_restart_schedule: the first call starts the timer, and reboots at once if that fails. */
    method RestartSchedule(timerStarts: bool) returns (restartNow: bool)
      modifies this`restartScheduled
      ensures restartScheduled && (restartNow <==> !old(restartScheduled) && !timerStarts)
    {
      var startTimer := !restartScheduled;
      restartScheduled := true;
      return startTimer && !timerStarts;
    }

    /** No upload is accepted before a reboot or a confirmation. */
    predicate Locked()
      reads this
    {
      restartScheduled || confirmationPending
    }

    /** ota_flash_post_handler: the reply, or None when the worker will send one. asyncBegins is
        whether the server can detach the request. */
    method FlashPost(contentLen: nat, header: Option<string>, slot: Option<nat>, asyncBegins: bool) returns (reply: Option<nat>)
      requires Valid() && Raced()
      modifies this`workerReady, this`requests, this`race
      ensures Valid() && Raced()
      ensures reply.None? <==>
                && !restartScheduled && !confirmationPending && contentLen > 0
                && Announces(header)
                && slot.Some? && contentLen <= slot.value && old(workerReady) && asyncBegins
      ensures race == if reply.None? then Next(Next(old(race), Guard), Take(true)) else old(race)
      ensures reply.None? ==>
                && |requests| == 1 && !workerReady && requests[0].contentLen == contentLen
                && requests[0].slot == slot.value && Says(header.value, requests[0].expected)
      ensures reply.Some? ==> requests == old(requests) && workerReady == old(workerReady)
      ensures reply == Some(411) <==> !Locked() && contentLen == 0
      ensures reply == Some(400) <==>
                !Locked() && contentLen > 0 && !Announces(header)
      ensures reply == Some(503) <==>
                && !Locked() && contentLen > 0 && Announces(header)
                && slot.None?
      ensures reply == Some(413) <==>
                && !Locked() && contentLen > 0 && Announces(header)
                && slot.Some? && contentLen > slot.value
      ensures reply in {None, Some(409), Some(411), Some(400), Some(503), Some(413)}
    {
      if restartScheduled {
        return Some(409);
      }
      if confirmationPending {
        return Some(409);
      }
      if contentLen == 0 {
        return Some(411);
      }
      var expected := ParseDigest(header);
      if expected.None? {
        return Some(400);
      }
      if slot.None? {
        return Some(503);
      }
      if contentLen > slot.value {
        return Some(413);
      }
      var queued := RequestQueue(Request(contentLen, expected.value, slot.value), asyncBegins);
      if queued {
        race := Next(Next(race, Guard), Take(true));
      }
      return if queued then None else Some(409);
    }

    /** ota_rollback_post_handler: possible is whether an older image can boot, marked whether it could be
        selected. It looks at no upload. */
    method RollbackPost(possible: bool, marked: bool, timerStarts: bool) returns (reply: nat, restartNow: bool)
      requires Valid() && Raced()
      modifies this`restartScheduled, this`race
      ensures Valid() && Raced()
      ensures reply == if old(restartScheduled) || !possible then 409 else if !marked then 500 else 200
      ensures restartScheduled <==> old(restartScheduled) || (possible && marked)
      ensures race == if reply == 200 then Next(old(race), Rollback) else old(race)
      ensures restartNow <==> reply == 200 && !timerStarts
    {
      if restartScheduled {
        return 409, false;
      }
      if !possible {
        return 409, false;
      }
      if !marked {
        return 500, false;
      }
      restartNow := RestartSchedule(timerStarts);
      race := Next(race, Rollback);
      return 200, restartNow;
    }

    /** ota_request_queue. With the permit in hand the queue has room, so the send cannot fail. */
    method RequestQueue(r: Request, asyncBegins: bool) returns (queued: bool)
      requires Valid() && 0 < r.contentLen <= r.slot && |r.expected| == Ota.DIGEST_LEN
      modifies this`workerReady, this`requests
      ensures Valid() && (queued <==> old(workerReady) && asyncBegins)
      ensures if queued then requests == [r] && !workerReady else requests == old(requests) && workerReady == old(workerReady)
    {
      if !workerReady {
        return false;
      }
      workerReady := false;
      if !asyncBegins {
        workerReady := true;
        return false;
      }
      requests := requests + [r];
      return true;
    }

    /** The worker offers its permit, then waits on the queue. */
    method WorkerOffers()
      requires Valid() && requests == [] && Raced() && race.worker == Offering
      modifies this`workerReady, this`race
      ensures Valid() && workerReady && Raced() && race == Next(old(race), Offer)
    {
      workerReady := true;
      race := Next(race, Offer);
    }

    /** The worker takes the request from its queue: the upload starts, whatever has been scheduled. */
    method WorkerFetch() returns (r: Request)
      requires Valid() && requests != [] && Raced()
      modifies this`requests, this`race
      ensures Valid() && requests == [] && Raced() && race == Next(old(race), Fetch) && r == old(requests[0])
      ensures 0 < r.contentLen <= r.slot && |r.expected| == Ota.DIGEST_LEN
    {
      r := requests[0];
      requests := requests[1..];
      race := Next(race, Fetch);
    }

    /** The upload, and what follows it. */
    method WorkerFinish(r: Request, w: Ota.World, socketOpen: bool, timerStarts: bool)
        returns (closed: bool, trace: seq<Ota.Call>)
      requires Valid() && Raced() && race.worker == Uploading && 0 < r.contentLen <= r.slot
      modifies this`restartScheduled, this`race
      ensures Valid() && Raced() && race == Next(old(race), Finish(Selects(w, r)))
      ensures Ota.Settled(Ota.AccountOf(trace), w, r.contentLen, r.expected) && |Ota.AccountOf(trace).written| <= r.slot
      ensures restartScheduled <==> old(restartScheduled) || Selects(w, r)
      ensures closed <==> socketOpen && Ota.FailsOpenly(w, r.contentLen, r.expected)
    {
      var result, restartRequired;
      result, restartRequired, trace := Ota.FlashReceive(w, r.contentLen, r.expected);
      closed := false;
      if restartRequired {
        var _ := RestartSchedule(timerStarts);
      } else if result != Ota.OK && socketOpen {
        closed := true;
      }
      race := Next(race, Finish(Selects(w, r)));
    }

    /** One upload of ota_worker_task: the image written never exceeds its slot; the reboot is
        scheduled exactly when the image was selected; the session is closed exactly when the upload
        fails with an error result. */
    method WorkerPass(w: Ota.World, socketOpen: bool, timerStarts: bool) returns (closed: bool, trace: seq<Ota.Call>)
      requires Valid() && requests != [] && Raced()
      modifies this`requests, this`restartScheduled, this`race
      ensures Valid() && requests == [] && Raced()
      ensures var r := old(requests[0]);
              && Ota.Settled(Ota.AccountOf(trace), w, r.contentLen, r.expected)
              && |Ota.AccountOf(trace).written| <= r.slot
              && (restartScheduled <==> old(restartScheduled) || (Ota.Verified(w, r.contentLen, r.expected) && w.end && w.boot))
              && (closed <==> socketOpen && Ota.FailsOpenly(w, r.contentLen, r.expected))
              && race == Next(Next(old(race), Fetch), Finish(Selects(w, r)))
    {
      var r := WorkerFetch();
      closed, trace := WorkerFinish(r, w, socketOpen, timerStarts);
    }

    /** One post: whether it let an upload in. */
    method HandlePost(post: Post) returns (queued: bool)
      requires Valid() && Raced()
      modifies this`workerReady, this`requests, this`restartScheduled, this`race
      ensures Valid() && Raced() && race.worker == old(race.worker) && race.late == old(race.late)
      ensures queued <==> Fit(post) && old(workerReady) && !old(restartScheduled) && !confirmationPending
      ensures if queued then !workerReady && |requests| == 1 && IsFor(requests[0], post)
              else workerReady == old(workerReady) && requests == old(requests)
      ensures restartScheduled <==> old(restartScheduled) || Effective(post)
    {
      match post {
        case Flash(contentLen, header, slot, asyncBegins) =>
          var reply := FlashPost(contentLen, header, slot, asyncBegins);
          return reply.None?;
        case RollBack(possible, marked, timerStarts) =>
          var _, _ := RollbackPost(possible, marked, timerStarts);
          return false;
      }
    }

    /** What clients ask for, one after the other: one permit lets in one upload at most, and that is the
        first that fits. */
    method HandlePosts(posts: seq<Post>) returns (accepted: nat, ghost taken: nat)
      requires Valid() && Raced()
      modifies this`workerReady, this`requests, this`restartScheduled, this`race
      ensures Valid() && Raced() && race.worker == old(race.worker) && race.late == old(race.late)
      ensures accepted <= 1 && (old(restartScheduled) || confirmationPending ==> accepted == 0)
      ensures if accepted == 1 then old(workerReady) && !workerReady && |requests| == 1
              else workerReady == old(workerReady) && requests == old(requests)
      ensures restartScheduled <==> old(restartScheduled) || RolledBack(posts)
      ensures accepted == 1 ==> LetsIn(posts, taken) && IsFor(requests[0], posts[taken])
      ensures accepted == 0 && old(workerReady) && !old(restartScheduled) && !confirmationPending ==>
                forall k :: !LetsIn(posts, k)
    {
      accepted, taken := 0, 0;
      ghost var quiet := 0;
      for index := 0 to |posts|
        invariant Valid() && Raced() && race.worker == old(race.worker) && race.late == old(race.late)
        invariant accepted <= 1 && (old(restartScheduled) || confirmationPending ==> accepted == 0)
        invariant if accepted == 1 then old(workerReady) && !workerReady && |requests| == 1
                  else workerReady == old(workerReady) && requests == old(requests)
        invariant restartScheduled <==> old(restartScheduled) || RolledBack(posts[..index])
        invariant accepted == 1 ==> taken < index && LetsIn(posts, taken) && IsFor(requests[0], posts[taken])
        invariant accepted == 0 && old(workerReady) && !old(restartScheduled) && !confirmationPending ==>
                    Quiet(posts, quiet) && if restartScheduled then quiet < index && Effective(posts[quiet]) else quiet == index
      {
        OneMorePost(posts, index);
        var open := !restartScheduled;
        var queued := HandlePost(posts[index]);
        if queued {
          accepted, taken := accepted + 1, index;
        } else if open {
          quiet := if restartScheduled then index else index + 1;
        }
      }
      assert posts[..|posts|] == posts;
    }

    /** One turn of the worker's loop, or None when it waits for good. */
    method OneRound(round: Round) returns (done: Option<Request>, ghost taken: nat)
      requires Valid() && requests == [] && Raced() && race.worker == Offering
      modifies this
      ensures Valid() && requests == [] && Raced() && confirmationPending == old(confirmationPending)
      ensures done.None? ==> workerReady && (restartScheduled <==> old(restartScheduled) || RolledBack(round.before))
      ensures done.None? && !old(restartScheduled) && !confirmationPending ==> forall n :: !LetsIn(round.before, n)
      ensures done.Some? ==> !old(restartScheduled) && !confirmationPending && race.worker == Offering
      ensures done.Some? ==> LetsIn(round.before, taken) && IsFor(done.value, round.before[taken])
      ensures done.Some? ==>
                (restartScheduled <==> RolledBack(round.before) || RolledBack(round.during) || Selects(round.world, done.value))
    {
      WorkerOffers();
      var accepted;
      accepted, taken := HandlePosts(round.before);
      if accepted == 0 {
        return None, taken;
      }
      var r := WorkerFetch();
      var more, _ := HandlePosts(round.during);
      assert more == 0;
      var _, _ := WorkerFinish(r, round.world, round.socketOpen, round.timerStarts);
      return Some(r), taken;
    }

    /** ota_worker_task over a script of what clients ask for before and during each upload: it offers its
        permit with an empty queue in every round, serves the first upload that fits, and waits for good
        once there is none. No round follows one whose image was selected, and of all the uploads one at
        most starts with a reboot scheduled. */
    method WorkerTask(rounds: seq<Round>) returns (uploads: nat, done: seq<Request>)
      requires Valid() && requests == [] && Raced() && race.worker == Offering
      modifies this
      ensures Valid() && requests == [] && uploads <= |rounds| && confirmationPending == old(confirmationPending)
      ensures old(restartScheduled) || confirmationPending ==> uploads == 0
      ensures uploads < |rounds| ==> workerReady
      ensures |done| == uploads && forall k :: 0 <= k < uploads - 1 ==> !Selects(rounds[k].world, done[k])
      ensures forall k :: 0 <= k < uploads ==> Served(rounds, done, k)
      ensures uploads < |rounds| && !confirmationPending && !Scheduled(old(restartScheduled), rounds, done, uploads) ==>
                forall n :: !LetsIn(rounds[uploads].before, n)
      ensures restartScheduled <==>
                || Scheduled(old(restartScheduled), rounds, done, uploads)
                || (uploads < |rounds| && RolledBack(rounds[uploads].before))
      ensures Raced() && race.late <= 1
    {
      uploads, done := 0, [];
      for index := 0 to |rounds|
        invariant Valid() && requests == [] && uploads == index && confirmationPending == old(confirmationPending)
        invariant old(restartScheduled) || confirmationPending ==> uploads == 0
        invariant Raced() && race.worker == Offering
        invariant |done| == index && forall k :: 0 <= k < index - 1 ==> !Selects(rounds[k].world, done[k])
        invariant index > 0 && Selects(rounds[index - 1].world, done[index - 1]) ==> restartScheduled
        invariant forall k :: 0 <= k < index ==> Served(rounds, done, k)
        invariant restartScheduled <==> Scheduled(old(restartScheduled), rounds, done, index)
      {
        var r, taken := OneRound(rounds[index]);
        if r.None? {
          return;
        }
        ServedNext(rounds, done, r.value, taken);
        ScheduledNext(old(restartScheduled), rounds, done, r.value);
        uploads, done := uploads + 1, done + [r.value];
      }
    }
  }

  lemma OneMorePost(posts: seq<Post>, n: nat)
    requires n < |posts|
    ensures RolledBack(posts[..n + 1]) <==> RolledBack(posts[..n]) || Effective(posts[n])
    ensures Quiet(posts, n + 1) <==> Quiet(posts, n) && !Fit(posts[n]) && !Effective(posts[n])
  {
    assert posts[..n + 1] == posts[..n] + [posts[n]];
    if Effective(posts[n]) { assert Effective(posts[..n + 1][n]); }
    if RolledBack(posts[..n]) {
      var k :| 0 <= k < n && Effective(posts[..n][k]);
      assert Effective(posts[..n + 1][k]);
    }
  }

  lemma ServedNext(rounds: seq<Round>, done: seq<Request>, r: Request, taken: nat)
    requires |done| < |rounds| && forall k :: 0 <= k < |done| ==> Served(rounds, done, k)
    requires LetsIn(rounds[|done|].before, taken) && IsFor(r, rounds[|done|].before[taken])
    ensures forall k :: 0 <= k <= |done| ==> Served(rounds, done + [r], k)
  {
    forall k | 0 <= k <= |done| ensures Served(rounds, done + [r], k) {
      if k == |done| {
        assert LetsIn(rounds[k].before, taken);
      } else {
        assert Served(rounds, done, k);
      }
    }
  }

  lemma ScheduledNext(start: bool, rounds: seq<Round>, done: seq<Request>, r: Request)
    requires |done| < |rounds|
    ensures var n := |done|;
            Scheduled(start, rounds, done + [r], n + 1) <==>
            || Scheduled(start, rounds, done, n) || RolledBack(rounds[n].before) || RolledBack(rounds[n].during)
            || Selects(rounds[n].world, r)
  {}

  // ---------------------------------------------------------------- the reboot race

  /** The server's task and the worker side by side. Of the uploads that come too late for a scheduled
      reboot `admitted` counts those accepted after it, `late` those the worker starts after it. */
  datatype Race = Race(scheduled: bool, permit: bool, handling: bool, queued: bool, worker: Worker, admitted: nat, late: nat)
  datatype Worker = Offering | Waiting | Uploading

  const BOOT := Race(false, false, false, false, Offering, 0, 0)

  datatype Act =
    | Guard               // the handler has passed its check of restart_scheduled
    | Take(begins: bool)  // with the permit, if there is one and the request can be detached, it queues
    | Rollback            // another handler of the same task schedules a reboot
    | Offer | Fetch
    | Finish(selected: bool)

  predicate CanAct(r: Race, a: Act) {
    match a
    case Guard => !r.handling && !r.scheduled
    case Take(_) => r.handling
    case Rollback => !r.handling
    case Offer => r.worker == Offering
    case Fetch => r.worker == Waiting && r.queued
    case Finish(_) => r.worker == Uploading
  }

  function Next(r: Race, a: Act): Race
    requires CanAct(r, a)
  {
    match a
    case Guard => r.(handling := true)
    case Take(begins) =>
      var accepted := r.permit && begins;
      r.(handling := false, permit := r.permit && !begins, queued := r.queued || accepted,
         admitted := r.admitted + if accepted && r.scheduled then 1 else 0)
    case Rollback => r.(scheduled := true)
    case Offer => r.(permit := true, worker := Waiting)
    case Fetch => r.(queued := false, worker := Uploading, late := r.late + if r.scheduled then 1 else 0)
    case Finish(selected) => r.(scheduled := r.scheduled || selected, worker := Offering)
  }

  /** Where the acts lead from r. */
  function From(r: Race, acts: seq<Act>): Option<Race> {
    if acts == [] then Some(r)
    else
      var p, a := From(r, acts[..|acts| - 1]), acts[|acts| - 1];
      if p.Some? && CanAct(p.value, a) then Some(Next(p.value, a)) else None
  }

  lemma Then(r: Race, acts: seq<Act>, s: Race, a: Act)
    requires From(r, acts) == Some(s) && CanAct(s, a)
    ensures From(r, acts + [a]) == Some(Next(s, a))
  {
    assert (acts + [a])[..|acts|] == acts;
  }

  /** The upload that has passed the check but has not started. */
  function Coming(r: Race): nat {
    (if r.handling then 1 else 0) + if r.queued then 1 else 0
  }

  /** A waiting worker has its permit out or a request queued, and no other has; once a reboot is scheduled
      one upload at most is coming or has started since. */
  predicate Bounded(r: Race) {
    && (!r.scheduled ==> r.late == r.admitted == 0)
    && r.admitted + (if r.handling then 1 else 0) <= 1
    && (r.scheduled ==> r.late + Coming(r) <= 1)
    && (r.worker == Waiting <==> r.permit || r.queued) && !(r.permit && r.queued)
  }

  lemma NextIsBounded(r: Race, a: Act)
    requires Bounded(r) && CanAct(r, a)
    ensures Bounded(Next(r, a))
  {}

  /** After a reboot is scheduled at most one more upload is accepted, and at most one more starts. */
  lemma {:induction false} AtMostOneLateUpload(acts: seq<Act>, r: Race)
    requires From(BOOT, acts) == Some(r)
    ensures Bounded(r) && r.late <= 1 && r.admitted <= 1
  {
    if acts == [] {
    } else {
      var p := From(BOOT, acts[..|acts| - 1]).value;
      AtMostOneLateUpload(acts[..|acts| - 1], p);
      NextIsBounded(p, acts[|acts| - 1]);
    }
  }

  /** Once a reboot is scheduled and no handler stands between its check and the permit, no upload is
      accepted any more, and none starts but the one that is queued; that one has started exactly when it
      is no longer queued. */
  lemma {:induction false} NoneAfterwards(r: Race, more: seq<Act>, t: Race)
    requires r.scheduled && !r.handling && From(r, more) == Some(t)
    ensures t.scheduled && !t.handling && t.admitted == r.admitted
    ensures t.late + Coming(t) == r.late + Coming(r)
    ensures !r.queued ==> t.late == r.late
  {
    if more == [] {
    } else {
      NoneAfterwards(r, more[..|more| - 1], From(r, more[..|more| - 1]).value);
    }
  }

  /** An upload accepted late is that of the handler which had passed its check when the reboot was
      scheduled: until that handler takes the permit there is none, and the permit decides. */
  lemma {:induction false} OnlyThatHandler(r: Race, more: seq<Act>, t: Race)
    requires r.scheduled && r.handling && From(r, more) == Some(t)
    ensures t.scheduled
    ensures if t.handling then t.admitted == r.admitted && forall i :: 0 <= i < |more| ==> !more[i].Take?
            else t.admitted <= r.admitted + 1 && exists i :: 0 <= i < |more| && more[i].Take?
    ensures !r.queued && t.handling ==> !t.queued && t.late == r.late
  {
    if more == [] {
    } else {
      var n := |more| - 1;
      var p := From(r, more[..n]).value;
      OnlyThatHandler(r, more[..n], p);
      if !p.handling {
        var i :| 0 <= i < n && more[..n][i].Take?;
        assert more[i].Take?;
      }
    }
  }

  /** Some continuation of r has one more late start. */
  ghost predicate MayBeLate(r: Race) {
    exists more: seq<Act> :: From(r, more).Some? && From(r, more).value.late > r.late
  }

  /** Some continuation of r has one more late acceptance. */
  ghost predicate MayBeAdmitted(r: Race) {
    exists more: seq<Act> :: From(r, more).Some? && From(r, more).value.admitted > r.admitted
  }

  /** Some continuation of r ends with an upload that selects its image. */
  ghost predicate MaySelect(r: Race) {
    exists more: seq<Act> :: From(r, more).Some? && CanAct(From(r, more).value, Finish(true))
  }

  /** In every reachable state with a reboot scheduled another upload can start if and only if a handler
      stands between its check and the permit or a request is queued, */
  lemma LateUploadExactly(acts: seq<Act>, r: Race)
    requires From(BOOT, acts) == Some(r) && r.scheduled
    ensures MayBeLate(r) <==> r.handling || r.queued
  {
    AtMostOneLateUpload(acts, r);
    if r.handling || r.queued {
      var more := ComesToStart(r);
    } else {
      forall more: seq<Act> | From(r, more).Some? ensures From(r, more).value.late <= r.late {
        NoneAfterwards(r, more, From(r, more).value);
      }
    }
  }

  /** another can be accepted if and only if a handler stands there, */
  lemma LateAdmissionExactly(acts: seq<Act>, r: Race)
    requires From(BOOT, acts) == Some(r) && r.scheduled
    ensures MayBeAdmitted(r) <==> r.handling
  {
    AtMostOneLateUpload(acts, r);
    if r.handling {
      var more, s := TakesIt(r);
    } else {
      forall more: seq<Act> | From(r, more).Some? ensures From(r, more).value.admitted <= r.admitted {
        NoneAfterwards(r, more, From(r, more).value);
      }
    }
  }

  /** and an image can still be selected if and only if, besides, an upload is under way. */
  lemma LateSelectionExactly(acts: seq<Act>, r: Race)
    requires From(BOOT, acts) == Some(r) && r.scheduled
    ensures MaySelect(r) <==> r.handling || r.queued || r.worker == Uploading
  {
    AtMostOneLateUpload(acts, r);
    if r.worker == Uploading {
      assert From(r, []) == Some(r) && CanAct(r, Finish(true));
    } else if r.handling || r.queued {
      var more := ComesToStart(r);
    } else {
      forall more: seq<Act> | From(r, more).Some? ensures !CanAct(From(r, more).value, Finish(true)) {
        NoneUnderWay(r, more, From(r, more).value);
      }
    }
  }

  lemma {:induction false} NoneUnderWay(r: Race, more: seq<Act>, t: Race)
    requires r.scheduled && Coming(r) == 0 && r.worker != Uploading && From(r, more) == Some(t)
    ensures t.scheduled && Coming(t) == 0 && t.worker != Uploading
  {
    if more == [] {
    } else {
      NoneUnderWay(r, more[..|more| - 1], From(r, more[..|more| - 1]).value);
    }
  }

  /** So when the worker schedules the reboot: exactly if a handler is past its check. */
  lemma ScheduledTooLate(acts: seq<Act>, r: Race)
    requires From(BOOT, acts) == Some(r) && CanAct(r, Finish(true))
    ensures MayBeLate(Next(r, Finish(true))) <==> r.handling
  {
    AtMostOneLateUpload(acts, r);
    Then(BOOT, acts, r, Finish(true));
    LateUploadExactly(acts + [Finish(true)], Next(r, Finish(true)));
  }

  /** And when a rollback does: exactly if a request is queued. */
  lemma RolledBackTooLate(acts: seq<Act>, r: Race)
    requires From(BOOT, acts) == Some(r) && CanAct(r, Rollback)
    ensures MayBeLate(Next(r, Rollback)) <==> r.queued
  {
    Then(BOOT, acts, r, Rollback);
    LateUploadExactly(acts + [Rollback], Next(r, Rollback));
  }

  /** The worker comes round to its permit, and the handler takes it. */
  lemma TakesIt(r: Race) returns (more: seq<Act>, s: Race)
    requires Bounded(r) && r.scheduled && r.handling
    ensures From(r, more) == Some(s) && s.admitted > r.admitted
    ensures s.late == r.late && s.scheduled && s.queued && s.worker == Waiting
  {
    more, s := [], r;
    if s.worker == Uploading { more, s := Do(r, more, s, Finish(false)); }
    if s.worker == Offering { more, s := Do(r, more, s, Offer); }
    more, s := Do(r, more, s, Take(true));
  }

  /** The worker starts what is queued, by then if not before. */
  lemma ComesToStart(r: Race) returns (more: seq<Act>)
    requires Bounded(r) && r.scheduled && (r.handling || r.queued)
    ensures From(r, more).Some? && From(r, more).value.late > r.late && From(r, more).value.worker == Uploading
  {
    var s := r;
    more := [];
    if r.handling {
      more, s := TakesIt(r);
    }
    more, s := Do(r, more, s, Fetch);
  }

  lemma Do(r: Race, acts: seq<Act>, s: Race, a: Act) returns (more: seq<Act>, t: Race)
    requires From(r, acts) == Some(s) && CanAct(s, a)
    ensures more == acts + [a] && From(r, more) == Some(t) && t == Next(s, a)
  {
    Then(r, acts, s, a);
    more, t := acts + [a], Next(s, a);
  }

  /** A run in which an upload is accepted, and starts, after another one's image has been selected. */
  lemma LateUploadHappens() returns (acts: seq<Act>, r: Race)
    ensures From(BOOT, acts) == Some(r) && r.late == 1 && r.admitted == 1
  {
    acts, r := [], BOOT;
    acts, r := Do(BOOT, acts, r, Offer);
    acts, r := Do(BOOT, acts, r, Guard);
    acts, r := Do(BOOT, acts, r, Take(true));
    acts, r := Do(BOOT, acts, r, Fetch);
    acts, r := Do(BOOT, acts, r, Guard);
    acts, r := Do(BOOT, acts, r, Finish(true));
    acts, r := Do(BOOT, acts, r, Offer);
    acts, r := Do(BOOT, acts, r, Take(true));
    acts, r := Do(BOOT, acts, r, Fetch);
  }

  /** A run in which an upload accepted before a rollback starts after it, and selects its own image. */
  lemma LateAfterRollback() returns (acts: seq<Act>, r: Race)
    ensures acts == [Offer, Guard, Take(true), Rollback, Fetch] && From(BOOT, acts) == Some(r)
    ensures r.late == 1 && r.admitted == 0 && r.worker == Uploading && CanAct(r, Finish(true))
  {
    acts, r := [], BOOT;
    acts, r := Do(BOOT, acts, r, Offer);
    acts, r := Do(BOOT, acts, r, Guard);
    acts, r := Do(BOOT, acts, r, Take(true));
    acts, r := Do(BOOT, acts, r, Rollback);
    acts, r := Do(BOOT, acts, r, Fetch);
  }
}
