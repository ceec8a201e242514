/** make_mock_route of tools/hardware_ota_test.py with its own three points, at any time of any day: the
    sentences are ones the firmware accepts, and their HDOPs fall from point to point. */
module RunnerRoute {
  import opened Nmea
  import opened NmeaFields
  import opened Framing
  import opened MockRoute

  // ---------------------------------------------------------------- the texts

  datatype Site = Site(lat: seq<byte>, lon: seq<byte>, hdop: seq<byte>)

  // 3723.2475 N, 12158.3416 W, HDOP 1.4
  const HDOP0: seq<byte> := [0x31, 0x2E, 0x34]
  const SITE0: Site := Site([0x33, 0x37, 0x32, 0x33, 0x2E, 0x32, 0x34, 0x37, 0x35],
                             [0x31, 0x32, 0x31, 0x35, 0x38, 0x2E, 0x33, 0x34, 0x31, 0x36], HDOP0)
  // 3723.2480 N, 12158.3420 W, HDOP 1.0
  const HDOP1: seq<byte> := [0x31, 0x2E, 0x30]
  const SITE1: Site := Site([0x33, 0x37, 0x32, 0x33, 0x2E, 0x32, 0x34, 0x38, 0x30],
                             [0x31, 0x32, 0x31, 0x35, 0x38, 0x2E, 0x33, 0x34, 0x32, 0x30], HDOP1)
  // 3723.2485 N, 12158.3425 W, HDOP 0.6
  const HDOP2: seq<byte> := [0x30, 0x2E, 0x36]
  const SITE2: Site := Site([0x33, 0x37, 0x32, 0x33, 0x2E, 0x32, 0x34, 0x38, 0x35],
                             [0x31, 0x32, 0x31, 0x35, 0x38, 0x2E, 0x33, 0x34, 0x32, 0x35], HDOP2)
  const SITES: seq<Site> := [SITE0, SITE1, SITE2]

  function TwoDigits(n: nat): (r: seq<byte>)
    requires n < 100
    ensures |r| == 2 && AllDigits(r)
  {
    [0x30 + n / 10, 0x30 + n % 10]
  }

  /** Hours, minutes and seconds of the day. */
  function Timestamp(seconds: nat): (r: seq<byte>)
    requires seconds < 86400
    ensures |r| == 6 && AllDigits(r)
  {
    TwoDigits(seconds / 3600) + TwoDigits(seconds / 60 % 60) + TwoDigits(seconds % 60)
  }

  /** The time's digits read as hhmmss. */
  lemma TimestampReads(seconds: nat)
    requires seconds < 86400
    ensures Horner(Timestamp(seconds)) == seconds / 3600 * 10000 + seconds / 60 % 60 * 100 + seconds % 60
  {
    var h, m, s := TwoDigits(seconds / 3600), TwoDigits(seconds / 60 % 60), TwoDigits(seconds % 60);
    TwoRead(seconds / 3600);
    TwoRead(seconds / 60 % 60);
    TwoRead(seconds % 60);
    HornerConcat(h, m);
    HornerConcat(h + m, s);
    assert Pow10(1) == 10 && Pow10(2) == 100;
  }

  lemma TwoRead(n: nat)
    requires n < 100
    ensures Horner(TwoDigits(n)) == n
  {
    HornerNext([], 0x30 + n / 10, [0x30 + n / 10]);
    HornerNext([0x30 + n / 10], 0x30 + n % 10, TwoDigits(n));
  }

  predicate SixDigits(d: seq<byte>) {
    |d| == 6 && AllDigits(d)
  }

  /** GPGGA,<time>,<lat>,N,<lon>,W,1,08,<hdop>,545.4,M,46.9,M,, */
  function GgaFields(time: seq<byte>, site: Site): seq<seq<byte>> {
    [GPGGA, time, site.lat, [0x4E], site.lon] + [[0x57], [0x31], [0x30, 0x38], site.hdop, [0x35, 0x34, 0x35, 0x2E, 0x34], [0x4D],
     [0x34, 0x36, 0x2E, 0x39], [0x4D], [], []]
  }

  /** GPRMC,<time>,A,<lat>,N,<lon>,W,000.5,084.4,<date>,003.1,W */
  function RmcFields(time: seq<byte>, site: Site, date: seq<byte>): seq<seq<byte>> {
    [GPRMC, time, [0x41], site.lat, [0x4E], site.lon] + [[0x57], [0x30, 0x30, 0x30, 0x2E, 0x35],
     [0x30, 0x38, 0x34, 0x2E, 0x34], date, [0x30, 0x30, 0x33, 0x2E, 0x31], [0x57]]
  }

  /** Point i of the route, sent i seconds after the clock was read. */
  function RunnerPoint(clock: nat, date: seq<byte>, i: nat): Point
    requires i < |SITES|
  {
    var time := Timestamp((clock + i) % 86400);
    Point(GgaFields(time, SITES[i]), RmcFields(time, SITES[i], date))
  }

  function RunnerPoints(clock: nat, date: seq<byte>): seq<Point> {
    [RunnerPoint(clock, date, 0), RunnerPoint(clock, date, 1), RunnerPoint(clock, date, 2)]
  }

  // ---------------------------------------------------------------- they are good

  /** Digits, capitals, points and slashes: nothing the format gives a meaning. */
  predicate Tame(f: seq<byte>) {
    forall i :: 0 <= i < |f| ==> 0x2E <= f[i] <= 0x5A
  }

  predicate TameUpTo(fields: seq<seq<byte>>, size: nat) {
    forall i :: 0 <= i < |fields| ==> Tame(fields[i]) && |fields[i]| <= size
  }

  lemma TameIsPlain(fields: seq<seq<byte>>, size: nat)
    requires TameUpTo(fields, size)
    ensures AllPlain(fields)
  {
    forall i | 0 <= i < |fields| ensures Plain(fields[i]) {
      assert Tame(fields[i]);
    }
  }

  lemma TameTwo(a: seq<seq<byte>>, b: seq<seq<byte>>, n: nat, m: nat)
    requires TameUpTo(a, n) && TameUpTo(b, m)
    ensures AllPlain(a + b)
  {
    TameIsPlain(a, n);
    TameIsPlain(b, m);
  }

  lemma DigitsAreTame(d: seq<byte>)
    requires AllDigits(d)
    ensures Tame(d)
  {
    forall i | 0 <= i < |d| ensures 0x2E <= d[i] <= 0x5A {
      assert IsDigit(d[i]);
    }
  }

  /** A list of n fields of at most so many bytes each is not long. */
  lemma {:induction false} Size(fields: seq<seq<byte>>, size: nat)
    requires fields != [] && TameUpTo(fields, size)
    ensures |Listed(fields)| < (size + 1) * |fields|
  {
    var n := |fields| - 1;
    if n == 0 {
    } else {
      Size(fields[..n], size);
      assert (size + 1) * |fields| == (size + 1) * n + (size + 1);
    }
  }

  lemma {:induction false} ListedTwo(a: seq<seq<byte>>, b: seq<seq<byte>>)
    requires a != [] && b != []
    ensures |Listed(a + b)| == |Listed(a)| + 1 + |Listed(b)|
    decreases |b|
  {
    var n := |b| - 1;
    assert (a + b)[..|a| + n] == a + b[..n];
    if n == 0 {
      assert a + b[..n] == a;
    } else {
      ListedTwo(a, b[..n]);
    }
  }

  predicate TameSite(site: Site) {
    && Tame(site.lat) && |site.lat| == 9 && Tame(site.lon) && |site.lon| == 10
    && Tame(site.hdop) && |site.hdop| == 3 && IsDecimal(site.hdop)
  }

  lemma GgaIsTame(time: seq<byte>, site: Site)
    requires SixDigits(time) && TameSite(site)
    ensures var f := GgaFields(time, site); TameUpTo(f[..5], 10) && TameUpTo(f[5..], 5)
  {
    DigitsAreTame(time);
  }

  lemma GgaIsSendable(time: seq<byte>, site: Site)
    requires SixDigits(time) && TameSite(site)
    ensures Sendable(GgaFields(time, site), GPGGA) && |GgaFields(time, site)| == 15 && GgaFields(time, site)[8] == site.hdop
  {
    var a, b := GgaFields(time, site)[..5], GgaFields(time, site)[5..];
    assert GgaFields(time, site) == a + b;
    GgaIsTame(time, site);
    TameTwo(a, b, 10, 5);
    Size(a, 10);
    Size(b, 5);
    ListedTwo(a, b);
  }

  lemma RmcIsSendable(time: seq<byte>, site: Site, date: seq<byte>)
    requires SixDigits(time) && SixDigits(date) && TameSite(site)
    ensures Sendable(RmcFields(time, site, date), GPRMC)
  {
    var a, b := RmcFields(time, site, date)[..6], RmcFields(time, site, date)[6..];
    DigitsAreTame(time);
    DigitsAreTame(date);
    assert RmcFields(time, site, date) == a + b;
    assert TameUpTo(a, 10) && TameUpTo(b, 6);
    TameTwo(a, b, 10, 6);
    Size(a, 10);
    Size(b, 6);
    ListedTwo(a, b);
  }

  /** One digit, a point and one digit. */
  lemma Tenths(f: seq<byte>)
    requires |f| == 3 && IsDigit(f[0]) && f[1] == DOT && IsDigit(f[2])
    ensures IsDecimal(f) && ExactMilli(f) == 1000 * DigitValue(f[0]) + 100 * DigitValue(f[2])
  {
    assert DotIndex(f) == 1;
    var i, fr := IntegerDigits(f), FractionDigits(f);
    assert i == [f[0]] && fr == [f[2]];
    HornerNext([], f[0], i);
    HornerNext([], f[2], fr);
    assert Pow10(0) == 1 && Pow10(1) == 10 && Pow10(2) == 100;
  }

  lemma Site0()
    ensures TameSite(SITE0) && ExactMilli(SITE0.hdop) == 1400
  {
    Tenths(HDOP0);
  }

  lemma Site1()
    ensures TameSite(SITE1) && ExactMilli(SITE1.hdop) == 1000
  {
    Tenths(HDOP1);
  }

  lemma Site2()
    ensures TameSite(SITE2) && ExactMilli(SITE2.hdop) == 600
  {
    Tenths(HDOP2);
  }

  lemma SitesAreTame(i: nat)
    requires i < |SITES|
    ensures TameSite(SITES[i]) && ExactMilli(SITES[i].hdop) == 1400 - 400 * i
  {
    if i == 0 {
      Site0();
    } else if i == 1 {
      Site1();
    } else {
      Site2();
    }
  }

  /** Each point of the runner is good, and its HDOP is 1.4, 1.0 or 0.6. */
  lemma RunnerPointIsGood(clock: nat, date: seq<byte>, i: nat)
    requires SixDigits(date) && i < |SITES|
    ensures var p := RunnerPoint(clock, date, i); GoodPoint(p) && PairOf(p).hdop == 1400 - 400 * i
  {
    var time := Timestamp((clock + i) % 86400);
    SitesAreTame(i);
    GgaIsSendable(time, SITES[i]);
    RmcIsSendable(time, SITES[i], date);
  }

  // ---------------------------------------------------------------- what the firmware reads there

  lemma FourRead(f: seq<byte>)
    requires |f| == 4
    ensures Horner(f) == 1000 * DigitValue(f[0]) + 100 * DigitValue(f[1]) + 10 * DigitValue(f[2]) + DigitValue(f[3])
  {
    HornerNext([], f[0], [f[0]]);
    HornerNext([f[0]], f[1], [f[0], f[1]]);
    HornerNext([f[0], f[1]], f[2], [f[0], f[1], f[2]]);
    HornerNext([f[0], f[1], f[2]], f[3], f);
  }

  /** A coordinate: digits, a point and four digits. */
  lemma CoordinateRead(f: seq<byte>, n: nat)
    requires |f| == n + 5 && f[n] == DOT && forall i :: 0 <= i < |f| && i != n ==> IsDigit(f[i])
    ensures IntegerDigits(f) == f[..n] && FractionDigits(f) == f[n + 1..]
    ensures Horner(f[n + 1..]) ==
            1000 * DigitValue(f[n + 1]) + 100 * DigitValue(f[n + 2]) + 10 * DigitValue(f[n + 3]) + DigitValue(f[n + 4])
  {
    assert DotIndex(f) == n;
    FourRead(f[n + 1..]);
  }

  /** f reads as the number a and, behind the point, the digits of b. */
  predicate Reads(f: seq<byte>, a: nat, b: nat) {
    Horner(IntegerDigits(f)) == a && Horner(FractionDigits(f)) == b && |FractionDigits(f)| == 4
  }

  lemma LatitudeReads(f: seq<byte>)
    requires |f| == 9 && f[..5] == [0x33, 0x37, 0x32, 0x33, 0x2E] && forall i :: 5 <= i < 9 ==> IsDigit(f[i])
    ensures Reads(f, 3723, 1000 * DigitValue(f[5]) + 100 * DigitValue(f[6]) + 10 * DigitValue(f[7]) + DigitValue(f[8]))
  {
    assert f[..5][..4] == f[..4] && f[4] == f[..5][4] == DOT;
    FourRead(f[..4]);
    assert forall i :: 0 <= i < 4 ==> f[i] == f[..5][i];
    CoordinateRead(f, 4);
  }

  lemma LongitudeReads(f: seq<byte>)
    requires |f| == 10 && f[..6] == [0x31, 0x32, 0x31, 0x35, 0x38, 0x2E] && forall i :: 6 <= i < 10 ==> IsDigit(f[i])
    ensures Reads(f, 12158, 1000 * DigitValue(f[6]) + 100 * DigitValue(f[7]) + 10 * DigitValue(f[8]) + DigitValue(f[9]))
  {
    assert f[..6][..5] == f[..5] && f[5] == f[..6][5] == DOT;
    FourRead(f[..4]);
    HornerNext(f[..4], f[4], f[..5]);
    assert forall i :: 0 <= i < 5 ==> f[i] == f[..6][i];
    CoordinateRead(f, 5);
  }

  /** 3723.2475, 3723.2480 and 3723.2485 north, 12158.3416, 12158.3420 and 12158.3425 west. */
  lemma SitesRead(i: nat)
    requires i < |SITES|
    ensures Reads(SITES[i].lat, 3723, 2475 + 5 * i)
    ensures Reads(SITES[i].lon, 12158, if i == 0 then 3416 else 3415 + 5 * i)
  {
    LatitudeReads(SITES[i].lat);
    LongitudeReads(SITES[i].lon);
  }

  lemma ItemRead(fields: seq<seq<byte>>, n: nat, item: seq<byte>)
    requires 1 <= n < |fields| && AllPlain(fields) && fields[n] == item != []
    ensures Field(Encoded(Listed(fields)), n) == Some(item)
  {
    FieldRoundTrip(fields, n);
  }

  lemma GgaItems(time: seq<byte>, site: Site)
    ensures var f := GgaFields(time, site);
            && |f| == 15 && f[1] == time && f[2] == site.lat && f[3] == ['N' as int] && f[4] == site.lon
            && f[5] == ['W' as int] && f[8] == site.hdop
  {}

  lemma RmcItems(time: seq<byte>, site: Site, date: seq<byte>)
    ensures var f := RmcFields(time, site, date);
            && |f| == 12 && f[1] == time && f[2] == ['A' as int] && f[3] == site.lat && f[4] == ['N' as int]
            && f[5] == site.lon && f[6] == ['W' as int] && f[9] == date
  {}

  /** In the GGA of point i the firmware's field lookup finds the time of the clock i seconds later, the
      place, its hemispheres and the HDOP, each where the format has it. */
  lemma GgaReads(clock: nat, date: seq<byte>, i: nat) returns (time: seq<byte>)
    requires SixDigits(date) && i < |SITES| && GoodPoint(RunnerPoint(clock, date, i))
    ensures var now := (clock + i) % 86400;
            SixDigits(time) && Horner(time) == now / 3600 * 10000 + now / 60 % 60 * 100 + now % 60
    ensures var g := PairOf(RunnerPoint(clock, date, i)).gga;
            && Field(g, 1) == Some(time)
            && Field(g, 2) == Some(SITES[i].lat) && Field(g, 3) == Some(['N' as int])
            && Field(g, 4) == Some(SITES[i].lon) && Field(g, 5) == Some(['W' as int]) && Field(g, 8) == Some(SITES[i].hdop)
  {
    time := Timestamp((clock + i) % 86400);
    TimestampReads((clock + i) % 86400);
    SitesAreTame(i);
    var site := SITES[i];
    GgaItems(time, site);
    var f := GgaFields(time, site);
    ItemRead(f, 1, time);
    ItemRead(f, 2, site.lat);
    ItemRead(f, 3, ['N' as int]);
    ItemRead(f, 4, site.lon);
    ItemRead(f, 5, ['W' as int]);
    ItemRead(f, 8, site.hdop);
  }

  /** In its RMC the same, and the status and the date. */
  lemma RmcReads(clock: nat, date: seq<byte>, i: nat) returns (time: seq<byte>)
    requires SixDigits(date) && i < |SITES| && GoodPoint(RunnerPoint(clock, date, i))
    ensures var now := (clock + i) % 86400;
            SixDigits(time) && Horner(time) == now / 3600 * 10000 + now / 60 % 60 * 100 + now % 60
    ensures var r := PairOf(RunnerPoint(clock, date, i)).rmc;
            && Field(r, 1) == Some(time) && Field(r, 2) == Some(['A' as int])
            && Field(r, 3) == Some(SITES[i].lat) && Field(r, 4) == Some(['N' as int])
            && Field(r, 5) == Some(SITES[i].lon) && Field(r, 6) == Some(['W' as int]) && Field(r, 9) == Some(date)
  {
    time := Timestamp((clock + i) % 86400);
    TimestampReads((clock + i) % 86400);
    SitesAreTame(i);
    var site := SITES[i];
    RmcItems(time, site, date);
    var f := RmcFields(time, site, date);
    ItemRead(f, 1, time);
    ItemRead(f, 2, ['A' as int]);
    ItemRead(f, 3, site.lat);
    ItemRead(f, 4, ['N' as int]);
    ItemRead(f, 5, site.lon);
    ItemRead(f, 6, ['W' as int]);
    ItemRead(f, 9, date);
  }

  lemma RunnerPointsAreGood(clock: nat, date: seq<byte>)
    requires SixDigits(date)
    ensures AllGood(RunnerPoints(clock, date))
  {
    forall i | 0 <= i < 3 ensures GoodPoint(RunnerPoints(clock, date)[i]) {
      RunnerPointIsGood(clock, date, i);
    }
  }

  /** The route, fed after anything, is parsed into three candidates, each with a lower HDOP than the one
      before: of an undivided window the last is the champion. */
  lemma RunnerRouteArrives(before: seq<byte>, clock: nat, date: seq<byte>)
    requires SixDigits(date)
    ensures var p := RunnerPoints(clock, date);
            && AllGood(p) && PairOf(p[0]).hdop == 1400 && PairOf(p[1]).hdop == 1000 && PairOf(p[2]).hdop == 600
            && Emitted(before + Chunk(p[0]) + Chunk(p[1]) + Chunk(p[2])) ==
               Emitted(before) + [PairOf(p[0])] + [PairOf(p[1])] + [PairOf(p[2])]
  {
    RunnerPointsAreGood(clock, date);
    RunnerPointIsGood(clock, date, 0);
    RunnerPointIsGood(clock, date, 1);
    RunnerPointIsGood(clock, date, 2);
    ThreeArrive(before, RunnerPoint(clock, date, 0), RunnerPoint(clock, date, 1), RunnerPoint(clock, date, 2));
  }

  lemma ThreeArrive(before: seq<byte>, p: Point, q: Point, r: Point)
    requires GoodPoint(p) && GoodPoint(q) && GoodPoint(r)
    ensures Emitted(before + Chunk(p) + Chunk(q) + Chunk(r)) == Emitted(before) + [PairOf(p)] + [PairOf(q)] + [PairOf(r)]
  {
    ChunkArrives(before, p);
    ChunkArrives(before + Chunk(p), q);
    ChunkArrives(before + Chunk(p) + Chunk(q), r);
  }

  /** make_mock_route, the clock and the date given. */
  method MakeMockRoute(hour: nat, minute: nat, second: nat, date: seq<byte>)
      returns (chunks: seq<seq<byte>>, expected: set<seq<byte>>)
    requires SixDigits(date)
    ensures var points := RunnerPoints((hour * 3600 + minute * 60 + second) % 86400, date);
            AllGood(points) && chunks == Chunks(points) && expected == Expected(points)
  {
    var baseSeconds := (hour * 3600 + minute * 60 + second) % 86400;
    RunnerPointsAreGood(baseSeconds, date);
    chunks, expected := MakeRoute(RunnerPoints(baseSeconds, date));
  }
}
