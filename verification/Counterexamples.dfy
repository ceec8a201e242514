/** Streams of checksum-valid sentences on which main/gnss.c does not do what a comment in it, or a
    reader, says. */
module Counterexamples {
  import opened Nmea
  import opened Basics
  import opened NmeaFields
  import opened Pairing
  import opened Framing
  import opened MockRoute
  import opened Protocol
  import opened RunnerRoute
  import opened UartRuns

  // ---------------------------------------------------------------- points with a given HDOP

  const EMPTY: seq<byte> := []

  function BlankGga(hdop: seq<byte>): seq<seq<byte>> {
    [GPGGA, EMPTY, EMPTY, EMPTY, EMPTY, EMPTY, EMPTY, EMPTY, hdop]
  }

  function BlankPoint(hdop: seq<byte>): Point {
    Point(BlankGga(hdop), [GPRMC, EMPTY])
  }

  lemma BlankIsSendable(hdop: seq<byte>)
    requires Tame(hdop) && |hdop| <= 11
    ensures Sendable(BlankGga(hdop), GPGGA) && Sendable([GPRMC, EMPTY], GPRMC)
  {
    Size(BlankGga(hdop), 11);
    TameIsPlain(BlankGga(hdop), 11);
    Size([GPRMC, EMPTY], 5);
    TameIsPlain([GPRMC, EMPTY], 5);
  }

  // ---------------------------------------------------------------- the chunk fed again

  /** The line on which the probe locks, cut anywhere, is not in the chunk fed again, and the RMC that
      follows finds no GGA. */
  lemma RefedChunkMisses(p: Point, n: nat) returns (before: seq<byte>, x: seq<byte>)
    requires GoodPoint(p) && 0 < n < |PairOf(p).gga|
    ensures before + x == PairOf(p).gga && |before| == n
    ensures Hit(before + x) && Completed(x).None? && Emitted(x + PairOf(p).rmc) == []
  {
    var g := PairOf(p).gga;
    before, x := g[..n], g[n..];
    assert before + x == g;
    GgaIsHit(p);
    TailIsOpen(p, n);
    TailWithRmc(p, n);
  }

  lemma TailWithRmc(p: Point, n: nat)
    requires GoodPoint(p) && 0 < n < |PairOf(p).gga|
    ensures Emitted(PairOf(p).gga[n..] + PairOf(p).rmc) == []
  {
    TailEmitsNothing(p, n);
    assert Chunk(p)[n..] == PairOf(p).gga[n..] + PairOf(p).rmc;
  }

  lemma TailIsOpen(p: Point, n: nat)
    requires GoodPoint(p) && 0 < n < |PairOf(p).gga|
    ensures Completed(PairOf(p).gga[n..]).None?
  {
    var x := PairOf(p).gga[n..];
    SentenceTail(p.gga, GPGGA, n);
    NoDollar(x[..|x| - 1]);
  }

  lemma GgaIsHit(p: Point)
    requires GoodPoint(p)
    ensures Hit(PairOf(p).gga)
  {
    SentenceArrives([], p.gga, GPGGA);
    assert GPGGA[2..] == GGA;
    Alone(p);
  }

  lemma Alone(p: Point)
    requires GoodPoint(p)
    ensures Completed(PairOf(p).gga) == Some(PairOf(p).gga)
  {
    var g := PairOf(p).gga;
    ListedShape(p.gga);
    ListedPrefix(p.gga, 1);
    assert p.gga[..1] == [GPGGA];
    EncodedRoundTrip([], Listed(p.gga));
    NothingBefore(g);
    assert g[0..] == g;
  }

  // ---------------------------------------------------------------- a GGA that displaces nothing

  /** Such a sentence passes the checksum and is a GGA, but its HDOP does not parse. */
  predicate Unreadable(fields: seq<seq<byte>>) {
    Sendable(fields, GPGGA) && |fields| > 8 && !IsDecimal(fields[8])
  }

  lemma UnreadableIsOther(before: seq<byte>, fields: seq<seq<byte>>)
    requires Unreadable(fields)
    ensures var s := Encoded(Listed(fields));
            && ChecksumValid(s) && HasType(s, GGA) && Hdop(s).None?
            && Sentences(before + s) == Sentences(before) + [s] && Classify(s).Other?
  {
    SentenceArrives(before, fields, GPGGA);
    FieldRoundTrip(fields, 8);
    assert GPGGA[2..] == GGA != RMC;
  }

  /** A GGA without a readable HDOP between a point's two sentences changes nothing: the RMC is still
      joined to the older GGA. */
  lemma UnreadableDisplacesNothing(before: seq<byte>, p: Point, fields: seq<seq<byte>>)
    requires GoodPoint(p) && Unreadable(fields)
    ensures var s := Encoded(Listed(fields));
            && ChecksumValid(s) && HasType(s, GGA)
            && Emitted(before + PairOf(p).gga + s + PairOf(p).rmc) == Emitted(before) + [PairOf(p)]
  {
    var g, s, r := PairOf(p).gga, Encoded(Listed(fields)), PairOf(p).rmc;
    GgaIsGga(before, p);
    UnreadableIsOther(before + g, fields);
    RmcIsRmc(before + g + s, p);
    JoinsAcross(Sentences(before), g, s, r);
  }

  lemma JoinsAcross(ss: seq<seq<byte>>, g: seq<byte>, s: seq<byte>, r: seq<byte>)
    requires Classify(g).Gga? && Classify(s).Other? && Classify(r).Rmc?
    ensures Emissions(ss + [g] + [s] + [r]) == Emissions(ss) + [Pair(g, r, Classify(g).hdop)]
  {
    var s1, s2 := ss + [g], ss + [g] + [s];
    GgaWaits(ss, g);
    KindsAppend(s1, s);
    assert Kinds(s2)[..|s1|] == Kinds(s1) && s2[..|s1|] == s1;
    assert Pending(Kinds(s2)) == Some(|ss|) && Kinds(s2)[|ss|] == Classify(g) && s2[|ss|] == g;
    assert Emissions(s2) == Emissions(s1) + [] == Emissions(ss);
    assert (s2 + [r])[..|s2|] == s2;
    assert Completing(s2, r) == [Pair(g, r, Classify(g).hdop)];
  }

  /** There are such sentences: one with no eighth field, for instance. */
  lemma SomeUnreadable()
    ensures Unreadable(BlankGga(EMPTY))
  {
    BlankIsSendable(EMPTY);
  }

  // ---------------------------------------------------------------- a larger HDOP preferred

  /** The candidate of such a point, as the filter gets it. */
  function HdopCandidate(hdop: seq<byte>, epoch: nat, n: nat): Candidate
    requires GoodPoint(BlankPoint(hdop))
  {
    Candidate(PairOf(BlankPoint(hdop)), epoch, 0, 0, n)
  }

  lemma BlankIsGood(hdop: seq<byte>)
    requires Tame(hdop) && |hdop| <= 11 && IsDecimal(hdop)
    ensures var p := BlankPoint(hdop);
            GoodPoint(p) && Field(PairOf(p).gga, 8) == Some(hdop) && PairOf(p).hdop == Wrap32(ExactMilli(hdop))
  {
    BlankIsSendable(hdop);
    FieldRoundTrip(BlankGga(hdop), 8);
    assert hdop != [];
  }

  lemma OneAndLarge()
    ensures Tame(ONE) && Tame(LARGE) && IsDecimal(ONE) && IsDecimal(LARGE)
    ensures DecimalLeq(ONE, LARGE) && !DecimalLeq(LARGE, ONE) && Wrap32(ExactMilli(LARGE)) < Wrap32(ExactMilli(ONE))
  {
    HdopOrderCanFail();
    Spell();
    Undotted(ONE);
    Undotted(LARGE);
  }

  lemma TwoArrive(before: seq<byte>, q: Point, p: Point)
    requires GoodPoint(q) && GoodPoint(p)
    ensures Emitted(before + Chunk(q) + Chunk(p)) == Emitted(before) + [PairOf(q)] + [PairOf(p)]
  {
    ChunkArrives(before, q);
    ChunkArrives(before + Chunk(q), p);
  }

  lemma LowerIsKept(c: Candidate, d: Candidate, epoch: nat)
    requires c.epoch == epoch && d.epoch == epoch && d.pair.hdop < c.pair.hdop
    ensures Choose(Some(c), [c], d, epoch) == (Some(d), [c] + [d])
  {}

  /** Two points that pass every test, the first with HDOP 1 and the second with HDOP 2147484: both are
      parsed, and in one window the filter keeps the second. */
  lemma LargerHdopWins(before: seq<byte>, epoch: nat)
    ensures DecimalLeq(ONE, LARGE) && !DecimalLeq(LARGE, ONE)
    ensures var q, p := BlankPoint(ONE), BlankPoint(LARGE);
            && GoodPoint(q) && Field(PairOf(q).gga, 8) == Some(ONE)
            && GoodPoint(p) && Field(PairOf(p).gga, 8) == Some(LARGE)
            && Emitted(before + Chunk(q) + Chunk(p)) == Emitted(before) + [PairOf(q)] + [PairOf(p)]
    ensures var c, d := HdopCandidate(ONE, epoch, 0), HdopCandidate(LARGE, epoch, 1);
            Choose(Some(c), [c], d, epoch) == (Some(d), [c] + [d])
  {
    OneAndLarge();
    BlankIsGood(ONE);
    BlankIsGood(LARGE);
    TwoArrive(before, BlankPoint(ONE), BlankPoint(LARGE));
    LowerIsKept(HdopCandidate(ONE, epoch, 0), HdopCandidate(LARGE, epoch, 1), epoch);
  }

  /** And a run in which that window is published: the point with HDOP 2147484 is streamed, the one with
      HDOP 1 is not. */
  lemma LargerHdopIsPublished() returns (acts: seq<Action>, t: State, c: Candidate, d: Candidate)
    ensures DecimalLeq(ONE, LARGE) && !DecimalLeq(LARGE, ONE)
    ensures After(acts) == Some(t) && |t.pubs| == 1 && t.pubs[0].window == [c] + [d]
    ensures var q, p := BlankPoint(ONE), BlankPoint(LARGE);
            GoodPoint(q) && GoodPoint(p) && c.pair == PairOf(q) && d.pair == PairOf(p) && t.pubs[0].publication.data == Chunk(p)
  {
    OneAndLarge();
    BlankIsGood(ONE);
    BlankIsGood(LARGE);
    acts, t, c, d := SecondIsPublished(BlankPoint(ONE), BlankPoint(LARGE));
  }

  /** Of two points in one window the second is published if its HDOP is the lower. */
  lemma SecondIsPublished(q: Point, p: Point) returns (acts: seq<Action>, t: State, c: Candidate, d: Candidate)
    requires GoodPoint(q) && GoodPoint(p) && PairOf(p).hdop < PairOf(q).hdop
    ensures After(acts) == Some(t) && |t.pubs| == 1 && t.pubs[0].window == [c] + [d]
    ensures c.pair == PairOf(q) && d.pair == PairOf(p) && t.pubs[0].publication.data == Chunk(p)
  {
    var h := Weighed(UNTOLD, q);
    c, d := Latest(UNTOLD, q), Latest(h, p);
    LowerIsKept(c, d, 1);
    acts := TwoAreWeighed(q, p);
    acts := Expires(acts, Weighed(h, p));
    acts, t := Publishes(acts, Weighed(h, p));
  }

  lemma TwoAreWeighed(q: Point, p: Point) returns (acts: seq<Action>)
    requires GoodPoint(q) && GoodPoint(p)
    ensures After(acts) == Some(Told(Weighed(Weighed(UNTOLD, q), p)))
  {
    Resets();
    NothingFed();
    acts := Arrives([InitReset], UNTOLD, q);
    acts := Arrives(acts, Weighed(UNTOLD, q), p);
  }

  // ---------------------------------------------------------------- where the order of HDOPs ends

  /** Of two valid sentences with HDOPs no larger than that of s the one with the smaller number parses
      to no more. */
  ghost predicate SentenceOrderKept(s: seq<byte>)
    requires Hdop(s).Some?
  {
    forall x, y :: InOrderUpTo(x, y, s) ==> Hdop(x).value <= Hdop(y).value
  }

  ghost predicate InOrderUpTo(x: seq<byte>, y: seq<byte>, s: seq<byte>)
    requires Hdop(s).Some?
  {
    && ChecksumValid(x) && Hdop(x).Some? && ChecksumValid(y) && Hdop(y).Some?
    && DecimalLeq(Field(x, 8).value, Field(y, 8).value) && DecimalLeq(Field(y, 8).value, Field(s, 8).value)
  }

  /** The order of HDOPs up to that of s is the order of the numbers in the sentences if and only if the
      number in s is below 2147483.648. */
  lemma HdopOrderExactly(s: seq<byte>)
    requires Hdop(s).Some?
    ensures SentenceOrderKept(s) <==> !DecimalLeq(LIMIT, Field(s, 8).value)
  {
    var f := Field(s, 8).value;
    OrderKeptExactly(f);
    if OrderKept(f) {
      assert SentenceOrderKept(s);
    } else {
      LimitBreaksOrder(s);
    }
  }

  /** There is a valid sentence with that HDOP. */
  lemma SentenceOf(hdop: seq<byte>) returns (x: seq<byte>)
    requires Tame(hdop) && |hdop| <= 11 && IsDecimal(hdop)
    ensures ChecksumValid(x) && Hdop(x) == Some(Wrap32(ExactMilli(hdop))) && Field(x, 8) == Some(hdop)
  {
    var p := BlankPoint(hdop);
    BlankIsGood(hdop);
    SentenceArrives([], p.gga, GPGGA);
    GgaIsGga([], p);
    x := PairOf(p).gga;
  }

  lemma LimitBreaksOrder(s: seq<byte>)
    requires Hdop(s).Some? && DecimalLeq(LIMIT, Field(s, 8).value)
    ensures !SentenceOrderKept(s)
  {
    ZeroAndLimit();
    LimitIsTame();
    var x := SentenceOf(ZERO);
    var y := SentenceOf(LIMIT);
    assert InOrderUpTo(x, y, s);
  }

  lemma LimitIsTame()
    ensures Tame(ZERO) && Tame(LIMIT) && |ZERO| <= 11 && |LIMIT| <= 11
  {}
}
