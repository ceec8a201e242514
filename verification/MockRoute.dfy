/** The test runner's side of the sentence format (tools/hardware_ota_test.py) against the firmware's:
    a route of GGA/RMC points, encoded and uploaded, comes out as one candidate a point. */
module MockRoute {
  import opened Nmea
  import opened Basics
  import opened NmeaFields
  import opened Pairing
  import opened Framing

  const GPGGA: seq<byte> := [0x47, 0x50, 0x47, 0x47, 0x41]
  const GPRMC: seq<byte> := [0x47, 0x50, 0x52, 0x4D, 0x43]

  // ---------------------------------------------------------------- comma lists

  /** No byte of the text means anything to the format. */
  predicate Plain(f: seq<byte>) {
    COMMA !in f && STAR !in f && DOLLAR !in f && LF !in f && CR !in f
  }

  function Listed(fields: seq<seq<byte>>): seq<byte>
    requires fields != []
  {
    var n := |fields| - 1;
    if n == 0 then fields[0] else Listed(fields[..n]) + [COMMA] + fields[n]
  }

  predicate AllPlain(fields: seq<seq<byte>>) {
    forall i :: 0 <= i < |fields| ==> Plain(fields[i])
  }

  lemma {:induction false} CommaCountConcat(a: seq<byte>, b: seq<byte>)
    ensures CommaCount(a + b) == CommaCount(a) + CommaCount(b)
  {
    if b == [] {
      assert a + b == a;
    } else {
      var n := |b| - 1;
      CommaCountConcat(a, b[..n]);
      assert (a + b)[..|a + b| - 1] == a + b[..n];
    }
  }

  lemma {:induction false} NoComma(s: seq<byte>)
    requires COMMA !in s
    ensures CommaCount(s) == 0
  {
    if s == [] {
    } else {
      NoComma(s[..|s| - 1]);
    }
  }

  /** A list of n fields has n - 1 commas and nothing else that matters. */
  lemma {:induction false} ListedShape(fields: seq<seq<byte>>)
    requires fields != [] && AllPlain(fields)
    ensures CommaCount(Listed(fields)) == |fields| - 1
    ensures var p := Listed(fields); STAR !in p && DOLLAR !in p && LF !in p && CR !in p
  {
    var n := |fields| - 1;
    NoComma(fields[n]);
    if n == 0 {
    } else {
      ListedShape(fields[..n]);
      CommaCountConcat(Listed(fields[..n]) + [COMMA], fields[n]);
      CommaCountConcat(Listed(fields[..n]), [COMMA]);
      assert CommaCount([COMMA]) == 1;
    }
  }

  /** The list starts with the list of its first k fields, and a comma follows unless that is all. */
  lemma {:induction false} ListedPrefix(fields: seq<seq<byte>>, k: nat)
    requires 1 <= k <= |fields|
    ensures Listed(fields[..k]) <= Listed(fields)
    ensures k < |fields| ==> |Listed(fields[..k])| < |Listed(fields)| && Listed(fields)[|Listed(fields[..k])|] == COMMA
    decreases |fields|
  {
    var n := |fields| - 1;
    if k == |fields| {
      assert fields[..k] == fields;
    } else {
      ListedPrefix(fields[..n], k);
      assert fields[..n][..k] == fields[..k];
    }
  }

  /** t is "$", the payload p, "*" and two more bytes. */
  predicate Frames(t: seq<byte>, p: seq<byte>) {
    |t| == |p| + 4 && t[0] == DOLLAR && t[1..|p| + 1] == p && t[|p| + 1] == STAR
  }

  /** The line the firmware looks at: the encoded list without its terminators. */
  function Line(p: seq<byte>): seq<byte> {
    Encoded(p)[..|p| + 4]
  }

  lemma LineIsTrimmed(p: seq<byte>)
    ensures Trimmed(Encoded(p)) == Line(p)
    ensures Frames(Line(p), p)
  {
    SplitNibbles(XorOf(p));
    TrimmedIs(Encoded(p), |p| + 4);
  }

  /** Field n of the encoded list is the n-th field of the list. */
  lemma FieldRoundTrip(fields: seq<seq<byte>>, n: nat)
    requires 1 <= n < |fields| && AllPlain(fields)
    ensures Field(Encoded(Listed(fields)), n) == if fields[n] == [] then None else Some(fields[n])
  {
    var t := Line(Listed(fields));
    LineIsTrimmed(Listed(fields));
    var lo, hi := FieldPlace(fields, n, t);
    FieldIs(t, n, lo, hi);
  }

  lemma FieldPlace(fields: seq<seq<byte>>, n: nat, t: seq<byte>) returns (lo: nat, hi: nat)
    requires 1 <= n < |fields| && AllPlain(fields) && Frames(t, Listed(fields))
    ensures IsField(t, n, lo, hi) && t[lo..hi] == fields[n]
  {
    NoStarBefore(fields, t);
    BeforeField(fields, n, t);
    lo, hi := |Listed(fields[..n])| + 2, |Listed(fields[..n + 1])| + 1;
    InField(fields, n, t);
    forall k | lo <= k < hi ensures t[k] != COMMA && t[k] != STAR {
      assert t[k] == t[lo..hi][k - lo];
    }
  }

  lemma NoStarBefore(fields: seq<seq<byte>>, t: seq<byte>)
    requires fields != [] && AllPlain(fields) && Frames(t, Listed(fields))
    ensures |t| == |Listed(fields)| + 4 && forall k :: 0 <= k <= |Listed(fields)| ==> t[k] != STAR
  {
    var p := Listed(fields);
    ListedShape(fields);
    forall k | 1 <= k <= |p| ensures t[k] != STAR {
      assert t[1..|p| + 1][k - 1] == p[k - 1];
    }
  }

  lemma InField(fields: seq<seq<byte>>, n: nat, t: seq<byte>)
    requires 1 <= n < |fields| && AllPlain(fields) && Frames(t, Listed(fields))
    ensures var lo, hi := |Listed(fields[..n])| + 2, |Listed(fields[..n + 1])| + 1;
            && lo <= hi < |t| && t[lo - 1] == COMMA && t[lo..hi] == fields[n]
            && (t[hi] == COMMA || t[hi] == STAR) && hi <= |Listed(fields)| + 1
  {
    var p, a, b := Listed(fields), Listed(fields[..n]), Listed(fields[..n + 1]);
    ListedPrefix(fields, n + 1);
    assert fields[..n + 1][..n] == fields[..n];
    var x, y := [DOLLAR] + a + [COMMA], p[|b|..] + t[|p| + 1..];
    Around(t, p, a, fields[n], b);
    assert y[0] == if |b| < |p| then p[|b|] else t[|p| + 1];
    Edges(t, x, fields[n], y);
  }

  lemma Edges(t: seq<byte>, x: seq<byte>, f: seq<byte>, y: seq<byte>)
    requires t == x + f + y && x != [] && y != []
    ensures t[|x| - 1] == x[|x| - 1] && t[|x|..|x| + |f|] == f && t[|x| + |f|] == y[0]
  {}

  lemma Around(t: seq<byte>, p: seq<byte>, a: seq<byte>, f: seq<byte>, b: seq<byte>)
    requires |p| < |t| && t[0] == DOLLAR && t[1..|p| + 1] == p && b <= p && b == a + [COMMA] + f
    ensures t == ([DOLLAR] + a + [COMMA]) + f + (p[|b|..] + t[|p| + 1..])
  {}

  /** n commas stand before field n. */
  lemma BeforeField(fields: seq<seq<byte>>, n: nat, t: seq<byte>)
    requires 1 <= n < |fields| && AllPlain(fields) && Frames(t, Listed(fields))
    ensures |Listed(fields[..n])| + 2 <= |t| && CommaCount(t[..|Listed(fields[..n])| + 2]) == n
  {
    var p, a := Listed(fields), Listed(fields[..n]);
    ListedPrefix(fields, n);
    assert p[..|a| + 1] == a + [COMMA];
    HeadOf(t, p, |a| + 1);
    CommasBefore(fields[..n], a);
  }

  lemma HeadOf(t: seq<byte>, p: seq<byte>, k: nat)
    requires k <= |p| < |t| && t[0] == DOLLAR && t[1..|p| + 1] == p
    ensures t[..k + 1] == [DOLLAR] + p[..k]
  {
    assert t[1..|p| + 1][..k] == t[1..k + 1];
  }

  lemma CommasBefore(fields: seq<seq<byte>>, a: seq<byte>)
    requires fields != [] && AllPlain(fields) && a == Listed(fields)
    ensures CommaCount([DOLLAR] + (a + [COMMA])) == |fields|
  {
    ListedShape(fields);
    CommaCountConcat([DOLLAR], a + [COMMA]);
    CommaCountConcat(a, [COMMA]);
    assert CommaCount([COMMA]) == 1 && CommaCount([DOLLAR]) == 0;
  }

  // ---------------------------------------------------------------- points

  /** A point of a route: the fields of its two sentences. */
  datatype Point = Point(gga: seq<seq<byte>>, rmc: seq<seq<byte>>)

  predicate Sendable(fields: seq<seq<byte>>, address: seq<byte>) {
    fields != [] && AllPlain(fields) && fields[0] == address && |fields| > 1 && |Listed(fields)| <= 122
  }

  /** A GGA with a readable eighth field, and an RMC. */
  predicate GoodPoint(p: Point) {
    Sendable(p.gga, GPGGA) && |p.gga| > 8 && IsDecimal(p.gga[8]) && Sendable(p.rmc, GPRMC)
  }

  function PairOf(p: Point): Pair
    requires GoodPoint(p)
  {
    Pair(Encoded(Listed(p.gga)), Encoded(Listed(p.rmc)), Wrap32(ExactMilli(p.gga[8])))
  }

  /** Such a sentence is valid, alone, and of the type its address says. */
  lemma SentenceArrives(before: seq<byte>, fields: seq<seq<byte>>, address: seq<byte>)
    requires Sendable(fields, address) && |address| == 5
    ensures var s := Encoded(Listed(fields));
            && Sentences(before + s) == Sentences(before) + [s] && ChecksumValid(s)
            && s[0] == DOLLAR && forall kind :: |kind| == 3 ==> (HasType(s, kind) <==> kind == address[2..])
  {
    var p := Listed(fields);
    var s := Encoded(p);
    ListedShape(fields);
    ListedPrefix(fields, 1);
    assert fields[..1] == [fields[0]] && p[..5] == address;
    EncodedIsOneSentence(before, p);
    EncodedIsValid(p);
    assert s[TYPE_OFFSET..TYPE_OFFSET + 3] == p[2..5] == address[2..];
  }

  /** Past its first byte a sentence has no "$". */
  lemma SentenceTail(fields: seq<seq<byte>>, address: seq<byte>, n: nat)
    requires Sendable(fields, address)
    ensures var s := Encoded(Listed(fields)); 0 < n <= |s| ==> DOLLAR !in s[n..]
    ensures var s := Encoded(Listed(fields)); LF !in s[..|s| - 1]
  {
    var p := Listed(fields);
    ListedShape(fields);
    SplitNibbles(XorOf(p));
  }

  lemma GgaIsGga(before: seq<byte>, p: Point)
    requires GoodPoint(p)
    ensures var g := PairOf(p).gga; Sentences(before + g) == Sentences(before) + [g] && Classify(g) == Gga(PairOf(p).hdop)
  {
    SentenceArrives(before, p.gga, GPGGA);
    assert GPGGA[2..] == GGA;
    FieldRoundTrip(p.gga, 8);
    assert p.gga[8] != [];
  }

  lemma RmcIsRmc(before: seq<byte>, p: Point)
    requires GoodPoint(p)
    ensures var r := PairOf(p).rmc; Sentences(before + r) == Sentences(before) + [r] && Classify(r) == Rmc
  {
    SentenceArrives(before, p.rmc, GPRMC);
    assert GPRMC[2..] == RMC;
    assert Hdop(PairOf(p).rmc).None?;
  }

  /** One point, fed after anything, gives one candidate: its own two sentences and its own HDOP. */
  lemma PointArrives(before: seq<byte>, p: Point)
    requires GoodPoint(p)
    ensures Emitted(before + PairOf(p).gga + PairOf(p).rmc) == Emitted(before) + [PairOf(p)]
  {
    GgaIsGga(before, p);
    RmcIsRmc(before + PairOf(p).gga, p);
    PairCompletes(Sentences(before), PairOf(p).gga, PairOf(p).rmc);
  }

  /** A GGA and an RMC of any talker and with any fields, the GGA's HDOP readable, fed one after the other after
      anything, give one candidate. */
  lemma AnyTalkerArrives(before: seq<byte>, gga: seq<seq<byte>>, rmc: seq<seq<byte>>)
    requires gga != [] && |gga[0]| == 5 && Sendable(gga, gga[0]) && gga[0][2..] == GGA
    requires rmc != [] && |rmc[0]| == 5 && Sendable(rmc, rmc[0]) && rmc[0][2..] == RMC
    requires |gga| > 8 && IsDecimal(gga[8])
    ensures var g, r := Encoded(Listed(gga)), Encoded(Listed(rmc));
            Emitted(before + g + r) == Emitted(before) + [Pair(g, r, Wrap32(ExactMilli(gga[8])))]
  {
    var g, r := Encoded(Listed(gga)), Encoded(Listed(rmc));
    SentenceArrives(before, gga, gga[0]);
    SentenceArrives(before + g, rmc, rmc[0]);
    FieldRoundTrip(gga, 8);
    assert gga[8] != [];
    assert Classify(g) == Gga(Wrap32(ExactMilli(gga[8])));
    assert Hdop(r).None? && Classify(r) == Rmc;
    PairCompletes(Sentences(before), g, r);
  }

  lemma PairCompletes(ss: seq<seq<byte>>, g: seq<byte>, r: seq<byte>)
    requires Classify(g).Gga? && Classify(r) == Rmc
    ensures Emissions(ss + [g] + [r]) == Emissions(ss) + [Pair(g, r, Classify(g).hdop)]
  {
    var s1, s2 := ss + [g], ss + [g] + [r];
    GgaWaits(ss, g);
    assert s2[..|s2| - 1] == s1;
    assert Completing(s1, r) == [Pair(s1[|ss|], r, Kinds(s1)[|ss|].hdop)];
  }

  lemma GgaWaits(ss: seq<seq<byte>>, g: seq<byte>)
    requires Classify(g).Gga?
    ensures var s1 := ss + [g];
            Emissions(s1) == Emissions(ss) && Pending(Kinds(s1)) == Some(|ss|) && Kinds(s1)[|ss|] == Classify(g)
  {
    KindsAppend(ss, g);
    PendingGga(Kinds(ss), Classify(g));
    GgaEmitsNothing(ss, g);
  }

  lemma GgaEmitsNothing(ss: seq<seq<byte>>, g: seq<byte>)
    requires Classify(g).Gga?
    ensures Emissions(ss + [g]) == Emissions(ss)
  {
    assert (ss + [g])[..|ss|] == ss;
    assert Completing(ss, g) == [];
  }

  lemma KindsAppend(ss: seq<seq<byte>>, g: seq<byte>)
    ensures Kinds(ss + [g]) == Kinds(ss) + [Classify(g)]
  {}

  lemma PendingGga(ks: seq<Kind>, k: Kind)
    requires k.Gga?
    ensures Pending(ks + [k]) == Some(|ks|)
  {}

  predicate AllGood(points: seq<Point>) {
    forall i :: 0 <= i < |points| ==> GoodPoint(points[i])
  }

  function Chunk(p: Point): seq<byte>
    requires GoodPoint(p)
  {
    PairOf(p).gga + PairOf(p).rmc
  }

  lemma ChunkArrives(before: seq<byte>, p: Point)
    requires GoodPoint(p)
    ensures Emitted(before + Chunk(p)) == Emitted(before) + [PairOf(p)]
  {
    PointArrives(before, p);
    Regroup(before, PairOf(p).gga, PairOf(p).rmc);
  }

  function Chunks(points: seq<Point>): seq<seq<byte>>
    requires AllGood(points)
  {
    if points == [] then [] else Chunks(points[..|points| - 1]) + [Chunk(points[|points| - 1])]
  }

  function Flat(chunks: seq<seq<byte>>): seq<byte> {
    if chunks == [] then [] else Flat(chunks[..|chunks| - 1]) + chunks[|chunks| - 1]
  }

  function Pairs(points: seq<Point>): seq<Pair>
    requires AllGood(points)
  {
    if points == [] then [] else Pairs(points[..|points| - 1]) + [PairOf(points[|points| - 1])]
  }

  /** A whole route, fed after anything, gives its points' candidates, in order and nothing else. */
  lemma {:induction false} RouteArrives(before: seq<byte>, points: seq<Point>)
    requires AllGood(points)
    ensures Emitted(before + Flat(Chunks(points))) == Emitted(before) + Pairs(points)
  {
    if points == [] {
      assert before + [] == before && Emitted(before) + [] == Emitted(before);
    } else {
      var n := |points| - 1;
      RouteArrives(before, points[..n]);
      var c := Chunks(points);
      assert c[..|c| - 1] == Chunks(points[..n]);
      var body := Flat(Chunks(points[..n]));
      ChunkArrives(before + body, points[n]);
      Regroup(before, body, Chunk(points[n]));
      Regroup(Emitted(before), Pairs(points[..n]), [PairOf(points[n])]);
    }
  }

  /** A point without its last bytes emits nothing. */
  lemma HeadEmitsNothing(before: seq<byte>, p: Point, m: nat)
    requires GoodPoint(p) && m < |Chunk(p)|
    ensures Emitted(before + Chunk(p)[..m]) == Emitted(before)
  {
    var g, r, x := PairOf(p).gga, PairOf(p).rmc, Chunk(p)[..m];
    var rest := (g + r[..|r| - 1])[m..];
    assert x + rest == g + r[..|r| - 1];
    Regroup(before, x, rest);
    Regroup(before, g, r[..|r| - 1]);
    AlmostEmitsNothing(before, p);
    EmittedGrows(before, x);
    EmittedGrows(before + x, rest);
  }

  lemma AlmostEmitsNothing(before: seq<byte>, p: Point)
    requires GoodPoint(p)
    ensures var r := PairOf(p).rmc; Emitted(before + PairOf(p).gga + r[..|r| - 1]) == Emitted(before)
  {
    var g, r := PairOf(p).gga, PairOf(p).rmc;
    SentenceTail(p.rmc, GPRMC, 1);
    NoNewline(before + g, r[..|r| - 1]);
    GgaIsGga(before, p);
    GgaEmitsNothing(Sentences(before), g);
  }

  lemma LoneRmc(r: seq<byte>)
    ensures Emissions([r]) == []
  {
    assert [r][..0] == [];
    assert Pending(Kinds([])) == None;
  }

  /** A point without its first bytes emits nothing when nothing comes before it. */
  lemma TailEmitsNothing(p: Point, m: nat)
    requires GoodPoint(p) && 0 < m <= |Chunk(p)|
    ensures Emitted(Chunk(p)[m..]) == []
  {
    var g, r := PairOf(p).gga, PairOf(p).rmc;
    if m <= |g| {
      assert Chunk(p)[m..] == g[m..] + r;
      SentenceTail(p.gga, GPGGA, m);
      NoDollar(g[m..]);
      SentenceArrives(g[m..], p.rmc, GPRMC);
      assert [] + [r] == [r];
      LoneRmc(r);
    } else {
      assert Chunk(p)[m..] == r[m - |g|..];
      SentenceTail(p.rmc, GPRMC, m - |g|);
      NoDollar(r[m - |g|..]);
    }
  }

  function Lines(p: Point): set<seq<byte>>
    requires GoodPoint(p)
  {
    {Trimmed(PairOf(p).gga), Trimmed(PairOf(p).rmc)}
  }

  function Expected(points: seq<Point>): set<seq<byte>>
    requires AllGood(points)
  {
    if points == [] then {} else Expected(points[..|points| - 1]) + Lines(points[|points| - 1])
  }

  lemma LineEnds(p: seq<byte>, x: seq<byte>)
    ensures x == Trimmed(Encoded(p)) <==> x + [CR, LF] == Encoded(p)
  {
    LineIsTrimmed(p);
    assert Encoded(p) == Line(p) + [CR, LF];
    if x + [CR, LF] == Encoded(p) { assert x == (x + [CR, LF])[..|x|] == Line(p); }
  }

  /** A point's lines are its two sentences, each without its line end. */
  lemma LinesExact(p: Point, x: seq<byte>)
    requires GoodPoint(p)
    ensures x in Lines(p) <==> x + [0x0D, 0x0A] == PairOf(p).gga || x + [0x0D, 0x0A] == PairOf(p).rmc
  {
    LineEnds(Listed(p.gga), x);
    LineEnds(Listed(p.rmc), x);
  }

  /** The lines to look for are those of the points: each point's are there, */
  lemma {:induction false} ExpectedHas(points: seq<Point>, i: nat)
    requires AllGood(points) && i < |points|
    ensures Lines(points[i]) <= Expected(points)
  {
    if i >= |points| - 1 {
    } else {
      ExpectedHas(points[..|points| - 1], i);
    }
  }

  /** and each is a point's. */
  lemma {:induction false} ExpectedOnly(points: seq<Point>, x: seq<byte>) returns (i: nat)
    requires AllGood(points) && x in Expected(points)
    ensures i < |points| && x in Lines(points[i])
  {
    i := |points| - 1;
    if x !in Lines(points[i]) {
      i := ExpectedOnly(points[..|points| - 1], x);
    }
  }

  lemma OneMore(points: seq<Point>, n: nat)
    requires AllGood(points) && n < |points|
    ensures Chunks(points[..n + 1]) == Chunks(points[..n]) + [Chunk(points[n])]
    ensures Expected(points[..n + 1]) == Expected(points[..n]) + Lines(points[n])
  {
    assert points[..n + 1][..n] == points[..n];
  }

  method MakeChunk(p: Point) returns (chunk: seq<byte>, lines: set<seq<byte>>)
    requires GoodPoint(p)
    ensures chunk == Chunk(p) && lines == Lines(p)
  {
    var gga, rmc := Listed(p.gga), Listed(p.rmc);
    LineIsTrimmed(gga);
    LineIsTrimmed(rmc);
    return Encoded(gga) + Encoded(rmc), {Line(gga), Line(rmc)};
  }

  /** make_mock_route for the given points: the chunks to upload, and the lines to look for in the
      stream. */
  method MakeRoute(points: seq<Point>) returns (chunks: seq<seq<byte>>, expected: set<seq<byte>>)
    requires AllGood(points)
    ensures chunks == Chunks(points)
    ensures expected == Expected(points)
  {
    chunks, expected := [], {};
    for index := 0 to |points|
      invariant chunks == Chunks(points[..index]) && expected == Expected(points[..index])
    {
      var chunk, lines := MakeChunk(points[index]);
      OneMore(points, index);
      chunks, expected := chunks + [chunk], expected + lines;
    }
    assert points[..|points|] == points;
  }
}
