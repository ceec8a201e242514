/** What the byte-at-a-time loops of main/gnss.c compute from the bytes t fed since the last reset:
    where the sentences are, and which GGA each RMC is joined to. */
module Framing {
  import opened Nmea
  import opened Basics
  import opened NmeaFields
  import opened Pairing

  // ---------------------------------------------------------------- framing

  /** Where the sentence being assembled after t begins, or -1 when none is. */
  function Open(t: seq<byte>): (i: int)
    ensures -1 <= i < |t|
    ensures i >= 0 ==> t[i] == DOLLAR && |t| - i <= MAX_SENTENCE_LEN
  {
    if t == [] then -1
    else
      var p := Open(t[..|t| - 1]);
      if t[|t| - 1] == DOLLAR then |t| - 1
      else if p < 0 || |t| - p > MAX_SENTENCE_LEN || t[|t| - 1] == LF then -1
      else p
  }

  /** Where the sentence that the last byte of t completes begins, or -1 when it completes none. */
  function Closed(t: seq<byte>): (i: int)
    ensures -1 <= i < |t|
    ensures i >= 0 ==> |t| - i <= MAX_SENTENCE_LEN
  {
    if t != [] && t[|t| - 1] == LF && |t| - Open(t[..|t| - 1]) <= MAX_SENTENCE_LEN then Open(t[..|t| - 1]) else -1
  }

  ghost predicate Quiet(t: seq<byte>, lo: int, hi: int)
    requires 0 <= lo && hi <= |t|
  {
    forall k :: lo <= k < hi ==> t[k] != DOLLAR && t[k] != LF
  }

  /** A sentence is open exactly from the last "$" on, while no newline and at most 128 bytes
      separate it from the end. */
  lemma {:induction false} OpenExact(t: seq<byte>, i: nat)
    requires i < |t|
    ensures Open(t) == i <==> t[i] == DOLLAR && Quiet(t, i + 1, |t|) && |t| - i <= MAX_SENTENCE_LEN
  {
    var n := |t| - 1;
    if i < n {
      OpenExact(t[..n], i);
      assert Quiet(t[..n], i + 1, n) <==> Quiet(t, i + 1, n);
      assert Quiet(t, i + 1, |t|) <==> Quiet(t, i + 1, n) && t[n] != DOLLAR && t[n] != LF;
    }
  }

  /** A sentence t[i..] completes at the end of t exactly when it starts with "$", ends with the
      only newline, holds no second "$" and spans at most 128 bytes. */
  lemma ClosedExact(t: seq<byte>, i: nat)
    requires i < |t|
    ensures Closed(t) == i <==>
              && t[|t| - 1] == LF && i < |t| - 1 && t[i] == DOLLAR
              && Quiet(t, i + 1, |t| - 1) && |t| - i <= MAX_SENTENCE_LEN
  {
    var n := |t| - 1;
    if i < n {
      OpenExact(t[..n], i);
      assert Quiet(t[..n], i + 1, n) <==> Quiet(t, i + 1, n);
    }
  }

  datatype Span = Span(lo: nat, hi: nat)

  /** The completed sentences of t, in order. */
  function Spans(t: seq<byte>): (r: seq<Span>)
    ensures forall k | 0 <= k < |r| :: r[k].lo < r[k].hi <= |t|
  {
    if t == [] then []
    else Spans(t[..|t| - 1]) + (if Closed(t) >= 0 then [Span(Closed(t), |t|)] else [])
  }

  /** Spans(t) lists the completed sentences and nothing else. */
  lemma {:induction false} SpansExact(t: seq<byte>, s: Span)
    ensures s in Spans(t) <==> s.lo < s.hi <= |t| && Closed(t[..s.hi]) == s.lo
  {
    if t == [] {
    } else {
      var n := |t| - 1;
      SpansExact(t[..n], s);
      if s.hi <= n {
        assert t[..n][..s.hi] == t[..s.hi];
      }
      assert t[..|t|] == t;
      assert forall x | x in Spans(t[..n]) :: x.hi <= n;
    }
  }

  /** No byte belongs to two sentences, and they are listed in stream order. */
  lemma {:induction false} SpansDisjoint(t: seq<byte>, j: nat, k: nat)
    requires j < k < |Spans(t)|
    ensures Spans(t)[j].hi <= Spans(t)[k].lo
  {
    var n := |t| - 1;
    if k < |Spans(t[..n])| {
      SpansDisjoint(t[..n], j, k);
    } else {
      var s := Spans(t)[j];
      assert s in Spans(t[..n]);
      SpansExact(t[..n], s);
      assert t[..n][..s.hi] == t[..s.hi];
      ClosedExact(t[..s.hi], s.lo);
      ClosedExact(t, Closed(t));
      assert t[s.hi - 1] == LF;
    }
  }

  function Sentences(t: seq<byte>): seq<seq<byte>> {
    if t == [] then []
    else Sentences(t[..|t| - 1]) + (if Closed(t) >= 0 then [t[Closed(t)..]] else [])
  }

  /** Sentences are verbatim stretches of the stream. */
  lemma {:induction false} SentenceIsSpan(t: seq<byte>, k: nat)
    ensures |Sentences(t)| == |Spans(t)|
    ensures k < |Spans(t)| ==> Sentences(t)[k] == t[Spans(t)[k].lo..Spans(t)[k].hi]
  {
    if t == [] {
    } else {
      SentenceIsSpan(t[..|t| - 1], k);
    }
  }

  // ---------------------------------------------------------------- candidates

  /** What a completed line is to the pairing. */
  ghost function Classify(s: seq<byte>): Kind {
    if !ChecksumValid(s) then Other
    else if Hdop(s).Some? then Gga(Hdop(s).value)
    else if HasType(s, RMC) then Rmc
    else Other
  }

  ghost function Kinds(ss: seq<seq<byte>>): (ks: seq<Kind>)
    ensures |ks| == |ss|
  {
    if ss == [] then [] else Kinds(ss[..|ss| - 1]) + [Classify(ss[|ss| - 1])]
  }

  lemma {:induction false} KindAt(ss: seq<seq<byte>>, k: nat)
    requires k < |ss|
    ensures Kinds(ss)[k] == Classify(ss[k])
  {
    if k >= |ss| - 1 {
    } else {
      KindAt(ss[..|ss| - 1], k);
    }
  }

  /** A GGA/RMC pair as the parser hands it on. */
  datatype Pair = Pair(gga: seq<byte>, rmc: seq<byte>, hdop: int)

  ghost function Emissions(ss: seq<seq<byte>>): (r: seq<Pair>) {
    if ss == [] then []
    else Emissions(ss[..|ss| - 1]) + Completing(ss[..|ss| - 1], ss[|ss| - 1])
  }

  /** What completing line s emits after the lines ss. */
  ghost function Completing(ss: seq<seq<byte>>, s: seq<byte>): seq<Pair> {
    var p := Pending(Kinds(ss));
    if Classify(s).Rmc? && p.Some? then [Pair(ss[p.value], s, Kinds(ss)[p.value].hdop)] else []
  }

  /** The candidates are the matches, in order. */
  lemma {:induction false} EmissionIsMatch(ss: seq<seq<byte>>, k: nat)
    ensures |Emissions(ss)| == |Matches(Kinds(ss))|
    ensures k < |Matches(Kinds(ss))| ==>
              var m := Matches(Kinds(ss))[k];
              Emissions(ss)[k] == Pair(ss[m.gga], ss[m.rmc], Kinds(ss)[m.gga].hdop)
  {
    if ss == [] {
    } else {
      var p := ss[..|ss| - 1];
      EmissionIsMatch(p, k);
      assert Kinds(ss)[..|p|] == Kinds(p);
    }
  }

  /** The candidates the bytes t give rise to, in order. */
  ghost function Emitted(t: seq<byte>): seq<Pair> {
    Emissions(Sentences(t))
  }

  lemma {:induction false} EmittedGrows(a: seq<byte>, b: seq<byte>)
    ensures Emitted(a) <= Emitted(a + b)
    decreases |b|
  {
    if b == [] {
      assert a + b == a;
    } else {
      EmittedGrows(a, b[..|b| - 1]);
      var c := a + b;
      assert c[..|c| - 1] == a + b[..|b| - 1];
      EmittedStep(c);
    }
  }

  /** The GGA waiting for its RMC after the bytes t, with its HDOP. */
  ghost function WaitingGga(t: seq<byte>): Option<(seq<byte>, int)> {
    var ss := Sentences(t);
    var p := Pending(Kinds(ss));
    if p.Some? then Some((ss[p.value], Kinds(ss)[p.value].hdop)) else None
  }

  /** The line being assembled after the bytes t. */
  function Assembling(t: seq<byte>): Option<seq<byte>> {
    if Open(t) >= 0 then Some(t[Open(t)..]) else None
  }

  /** One byte of the framing: the line being assembled, and the line just completed. */
  function Frame(line: Option<seq<byte>>, b: byte): (Option<seq<byte>>, Option<seq<byte>>) {
    if b == DOLLAR then (Some([b]), None)
    else if line.None? || |line.value| >= MAX_SENTENCE_LEN then (None, None)
    else if b == LF then (None, Some(line.value + [b]))
    else (Some(line.value + [b]), None)
  }

  function Completed(t: seq<byte>): Option<seq<byte>> {
    if Closed(t) >= 0 then Some(t[Closed(t)..]) else None
  }

  lemma FrameExact(t: seq<byte>)
    requires t != []
    ensures Frame(Assembling(t[..|t| - 1]), t[|t| - 1]) == (Assembling(t), Completed(t))
  {
    var p := t[..|t| - 1];
    assert t[|t| - 1..] == [t[|t| - 1]];
    if Open(p) >= 0 {
      assert t[Open(p)..] == p[Open(p)..] + [t[|t| - 1]];
    }
  }

  /** What the parser remembers: the line being assembled and the GGA waiting for its RMC. */
  datatype Memory = Memory(line: Option<seq<byte>>, waiting: Option<(seq<byte>, int)>)

  ghost function MemoryAfter(t: seq<byte>): Memory {
    Memory(Assembling(t), WaitingGga(t))
  }

  /** The waiting GGA and the output once line s has been judged. */
  ghost function Judge(waiting: Option<(seq<byte>, int)>, s: seq<byte>): (Option<(seq<byte>, int)>, seq<Pair>) {
    match Classify(s)
    case Gga(h) => (Some((s, h)), [])
    case Rmc => (None, if waiting.Some? then [Pair(waiting.value.0, s, waiting.value.1)] else [])
    case Other => (waiting, [])
  }

  /** One byte of the feed loop. */
  ghost function Absorb(m: Memory, b: byte): (Memory, seq<Pair>) {
    match Frame(m.line, b)
    case (line, None) => (Memory(line, m.waiting), [])
    case (line, Some(s)) => (Memory(line, Judge(m.waiting, s).0), Judge(m.waiting, s).1)
  }

  ghost function AbsorbAll(m: Memory, data: seq<byte>): (Memory, seq<Pair>) {
    if data == [] then (m, [])
    else
      var n := |data| - 1;
      var (m', out) := AbsorbAll(m, data[..n]);
      (Absorb(m', data[n]).0, out + Absorb(m', data[n]).1)
  }

  lemma AbsorbExact(t: seq<byte>)
    requires t != []
    ensures var p, b := t[..|t| - 1], t[|t| - 1];
            MemoryAfter(t) == Absorb(MemoryAfter(p), b).0 && Emitted(t) == Emitted(p) + Absorb(MemoryAfter(p), b).1
  {
    FrameExact(t);
    WaitingStep(t);
    EmittedStep(t);
  }

  /** However the stream is split into feeds, the machine's memory and output are those the stream's
      own structure determines. */
  lemma {:induction false} FeedExact(t: seq<byte>, data: seq<byte>, all: seq<byte>)
    requires all == t + data
    ensures MemoryAfter(all) == AbsorbAll(MemoryAfter(t), data).0
    ensures Emitted(all) == Emitted(t) + AbsorbAll(MemoryAfter(t), data).1
    decreases |data|
  {
    if data == [] {
      assert all == t;
    } else {
      var n, p := |data| - 1, all[..|all| - 1];
      FeedExact(t, data[..n], p);
      AbsorbExact(all);
      var (m, out) := AbsorbAll(MemoryAfter(t), data[..n]);
      Regroup(Emitted(t), out, Absorb(m, data[n]).1);
    }
  }

  lemma NothingFed()
    ensures MemoryAfter([]) == Memory(None, None) && Emitted([]) == []
  {}

  lemma WaitingStep(t: seq<byte>)
    requires t != []
    ensures var p := t[..|t| - 1];
            WaitingGga(t) == if Completed(t).None? then WaitingGga(p) else Judge(WaitingGga(p), Completed(t).value).0
  {
    var p := t[..|t| - 1];
    if Closed(t) >= 0 {
      var ss := Sentences(t);
      assert ss[..|ss| - 1] == Sentences(p);
      assert Kinds(ss)[..|ss| - 1] == Kinds(Sentences(p));
    } else {
      assert Sentences(t) == Sentences(p);
    }
  }

  lemma EmittedStep(t: seq<byte>)
    requires t != []
    ensures var p := t[..|t| - 1];
            Emitted(t) == Emitted(p) + if Completed(t).None? then [] else Judge(WaitingGga(p), Completed(t).value).1
  {
    var p := t[..|t| - 1];
    if Closed(t) >= 0 {
      var ss := Sentences(p) + [t[Closed(t)..]];
      assert ss[..|ss| - 1] == Sentences(p);
    } else {
      assert Sentences(t) == Sentences(p);
    }
  }

  /** t[s.lo..s.hi] is a checksum-valid sentence of t. */
  ghost predicate ValidSpan(t: seq<byte>, s: Span) {
    s.lo < s.hi <= |t| && Closed(t[..s.hi]) == s.lo && ChecksumValid(t[s.lo..s.hi])
  }

  /** Where the two sentences of the k-th candidate stand. */
  ghost function Place(t: seq<byte>, k: nat): (Span, Span)
    requires k < |Emitted(t)|
  {
    var ks := Kinds(Sentences(t));
    EmissionIsMatch(Sentences(t), k);
    SentenceIsSpan(t, Matches(ks)[k].gga);
    (Spans(t)[Matches(ks)[k].gga], Spans(t)[Matches(ks)[k].rmc])
  }

  /** One candidate is over before the next begins. */
  lemma EmittedApart(t: seq<byte>, j: nat, k: nat)
    requires j < k < |Emitted(t)|
    ensures Place(t, j).1.hi <= Place(t, k).0.lo
  {
    var ks := Kinds(Sentences(t));
    EmissionIsMatch(Sentences(t), j);
    EmissionIsMatch(Sentences(t), k);
    MatchesInOrder(ks, j, k);
    SentenceIsSpan(t, Matches(ks)[k].gga);
    SpansDisjoint(t, Matches(ks)[j].rmc, Matches(ks)[k].gga);
  }

  /** The k-th candidate is two valid sentences of the stream, the GGA wholly before the RMC. */
  lemma EmittedVerbatim(t: seq<byte>, k: nat) returns (g: Span, r: Span)
    requires k < |Emitted(t)|
    ensures (g, r) == Place(t, k)
    ensures ValidSpan(t, g) && ValidSpan(t, r) && g.hi <= r.lo
    ensures Emitted(t)[k].gga == t[g.lo..g.hi] && Emitted(t)[k].rmc == t[r.lo..r.hi]
    ensures Hdop(t[g.lo..g.hi]) == Some(Emitted(t)[k].hdop) && HasType(t[r.lo..r.hi], RMC)
  {
    var ss := Sentences(t);
    var ks := Kinds(ss);
    EmissionIsMatch(ss, k);
    var m := Matches(ks)[k];
    assert m in Matches(ks);
    MatchesExact(ks, m.gga, m.rmc);
    KindAt(ss, m.gga);
    KindAt(ss, m.rmc);
    SentenceIsSpan(t, m.gga);
    SentenceIsSpan(t, m.rmc);
    g, r := Spans(t)[m.gga], Spans(t)[m.rmc];
    SpansExact(t, g);
    SpansExact(t, r);
    SpansDisjoint(t, m.gga, m.rmc);
  }

  /** And every two of them are a candidate, a GGA and an RMC with none of either between them. */
  lemma PairIsEmitted(t: seq<byte>, g: nat, r: nat) returns (k: nat)
    requires g < r < |Spans(t)| == |Sentences(t)|
    requires Classify(Sentences(t)[g]).Gga? && Classify(Sentences(t)[r]).Rmc?
    requires forall j :: g < j < r ==> Classify(Sentences(t)[j]).Other?
    ensures k < |Emitted(t)| && Place(t, k) == (Spans(t)[g], Spans(t)[r])
    ensures Emitted(t)[k] == Pair(Sentences(t)[g], Sentences(t)[r], Classify(Sentences(t)[g]).hdop)
  {
    var ss := Sentences(t);
    var ks := Kinds(ss);
    KindAt(ss, g);
    KindAt(ss, r);
    forall j | g + 1 <= j < r ensures ks[j].Other? {
      KindAt(ss, j);
    }
    MatchesExact(ks, g, r);
    k :| k < |Matches(ks)| && Matches(ks)[k] == Match(g, r);
    EmissionIsMatch(ss, k);
  }

  // ---------------------------------------------------------------- round trip

  /** The encoder's output, fed after any bytes, completes as one valid sentence exactly when the
      payload has 6 to 122 bytes and none of "$", "*" and newline. */
  lemma EncodedRoundTrip(before: seq<byte>, payload: seq<byte>)
    ensures var s := Encoded(payload);
            (Closed(before + s) == |before| && ChecksumValid(s)) <==>
              6 <= |payload| <= 122 && DOLLAR !in payload && STAR !in payload && LF !in payload
  {
    var s := Encoded(payload);
    var t := before + s;
    var i := |before|;
    ClosedExact(t, i);
    EncodedIsValid(payload);
    assert t[i] == DOLLAR && t[|t| - 1] == LF && |t| - i == |payload| + 6;
    if DOLLAR in payload || LF in payload {
      var j :| 0 <= j < |payload| && (payload[j] == DOLLAR || payload[j] == LF);
      assert t[i + 1 + j] == payload[j];
      assert !Quiet(t, i + 1, |t| - 1);
    } else {
      forall k | i + 1 <= k < |t| - 1 ensures t[k] != DOLLAR && t[k] != LF {
        assert t[k] == s[k - i];
        assert k - i <= |payload| ==> t[k] == payload[k - i - 1];
      }
    }
  }

  /** Such a sentence is the only one its bytes complete. */
  lemma EncodedIsOneSentence(before: seq<byte>, payload: seq<byte>)
    requires 6 <= |payload| <= 122 && DOLLAR !in payload && STAR !in payload && LF !in payload
    ensures Sentences(before + Encoded(payload)) == Sentences(before) + [Encoded(payload)]
  {
    var s := Encoded(payload);
    EncodedRoundTrip(before, payload);
    NoNewline(before, s[..|s| - 1]);
    var t := before + s;
    var p := t[..|t| - 1];
    assert p == before + s[..|s| - 1];
    assert Sentences(t) == Sentences(p) + [t[|before|..]];
    assert t[|before|..] == s;
  }

  lemma {:induction false} NoNewline(before: seq<byte>, s: seq<byte>)
    requires LF !in s
    ensures Sentences(before + s) == Sentences(before)
    decreases |s|
  {
    if s == [] {
      assert before + s == before;
    } else {
      NoNewline(before, s[..|s| - 1]);
      var t := before + s;
      assert t[..|t| - 1] == before + s[..|s| - 1];
      assert t[|t| - 1] == s[|s| - 1];
    }
  }

  /** Without a "$" nothing completes. */
  lemma {:induction false} NoDollar(s: seq<byte>)
    requires DOLLAR !in s
    ensures Open(s) == -1 && Sentences(s) == []
  {
    if s == [] {
    } else {
      NoDollar(s[..|s| - 1]);
    }
  }

  // ---------------------------------------------------------------- the baud probe

  const GLL: seq<byte> := [0x47, 0x4C, 0x4C]
  const VTG: seq<byte> := [0x56, 0x54, 0x47]
  const GSA: seq<byte> := [0x47, 0x53, 0x41]
  const GSV: seq<byte> := [0x47, 0x53, 0x56]

  predicate LooksValid(s: seq<byte>) {
    s != [] && s[0] == DOLLAR &&
    (HasType(s, GGA) || HasType(s, RMC) || HasType(s, GLL) || HasType(s, VTG) || HasType(s, GSA) || HasType(s, GSV))
  }

  const TYPES: seq<string> := ["GGA", "RMC", "GLL", "VTG", "GSA", "GSV"]

  /** The letters t stand in the type's place. */
  predicate Names(s: seq<byte>, t: string) {
    |s| >= 6 && |t| == 3 && s[3] == t[0] as int && s[4] == t[1] as int && s[5] == t[2] as int
  }

  /** The two types that are paired, and the six that prove a baud rate, by their letters. */
  lemma TypesExact(s: seq<byte>)
    ensures HasType(s, GGA) <==> Names(s, "GGA")
    ensures HasType(s, RMC) <==> Names(s, "RMC")
    ensures LooksValid(s) <==> s != [] && s[0] == '$' as int && exists k :: 0 <= k < 6 && Names(s, TYPES[k])
  {
    TypeExact(s, GGA, "GGA");
    TypeExact(s, RMC, "RMC");
    TypeExact(s, GLL, "GLL");
    TypeExact(s, VTG, "VTG");
    TypeExact(s, GSA, "GSA");
    TypeExact(s, GSV, "GSV");
    assert TYPES[0] == "GGA" && TYPES[1] == "RMC" && TYPES[2] == "GLL";
    assert TYPES[3] == "VTG" && TYPES[4] == "GSA" && TYPES[5] == "GSV";
  }

  /** An RMC is a line with a right checksum and that type, a GGA one of its type that has a number for its
      HDOP besides. */
  lemma ClassifiedExact(s: seq<byte>)
    ensures Classify(s).Rmc? <==> IsSentence(s) && Names(s, "RMC")
    ensures Classify(s).Gga? <==> IsSentence(s) && Names(s, "GGA") && Field(s, 8).Some? && IsDecimal(Field(s, 8).value)
    ensures Classify(s).Gga? ==> Classify(s).hdop == Wrap32(ExactMilli(Field(s, 8).value))
  {
    TypesExact(s);
    ChecksumExact(s);
  }

  lemma TypeExact(s: seq<byte>, kind: seq<byte>, t: string)
    requires |kind| == 3 && |t| == 3 && kind[0] == t[0] as int && kind[1] == t[1] as int && kind[2] == t[2] as int
    ensures HasType(s, kind) <==> Names(s, t)
  {}

  /** The last byte of t completes a sentence that proves the baud rate. */
  predicate Hit(t: seq<byte>) {
    Completed(t).Some? && Convincing(Completed(t).value)
  }

  predicate Convincing(s: seq<byte>) {
    LooksValid(s) && ChecksumValid(s)
  }

  lemma HitExact(t: seq<byte>)
    requires t != []
    ensures var (line, done) := Frame(Assembling(t[..|t| - 1]), t[|t| - 1]);
            Assembling(t) == line && (Hit(t) <==> done.Some? && Convincing(done.value))
  {
    FrameExact(t);
  }

  /** A line opened in x is open in x whatever came before it, and one opened before x is not. */
  lemma {:induction false} OpenIsLocal(before: seq<byte>, x: seq<byte>)
    ensures Open(before + x) >= |before| <==> Open(x) >= 0
    ensures Open(x) >= 0 ==> Open(before + x) == |before| + Open(x)
    decreases |x|
  {
    if x == [] {
      assert before + x == before;
    } else {
      var t, n := before + x, |x| - 1;
      assert t[..|t| - 1] == before + x[..n];
      OpenIsLocal(before, x[..n]);
    }
  }

  lemma ClosedIsLocal(before: seq<byte>, x: seq<byte>)
    requires x != []
    ensures Closed(before + x) >= |before| <==> Closed(x) >= 0
    ensures Closed(x) >= 0 ==> Closed(before + x) == |before| + Closed(x)
  {
    var t, n := before + x, |x| - 1;
    assert t[..|t| - 1] == before + x[..n] && t[|t| - 1] == x[n];
    OpenIsLocal(before, x[..n]);
  }

  /** gnss_init_task feeds the parser again the chunk x in which the probe, which had seen `before`,
      found its line. The parser completes that line exactly when it began in the chunk. */
  lemma RefedChunk(before: seq<byte>, x: seq<byte>)
    requires x != [] && Hit(before + x)
    ensures Completed(x).Some? <==> Closed(before + x) >= |before|
    ensures Completed(x).Some? ==> Completed(x) == Completed(before + x)
  {
    ClosedIsLocal(before, x);
    if Closed(x) >= 0 {
      assert (before + x)[|before| + Closed(x)..] == x[Closed(x)..];
    }
  }

  /** None of the bytes at positions lo to hi - 1 of t does. */
  ghost predicate NoHit(t: seq<byte>, lo: nat, hi: nat)
    requires hi <= |t|
  {
    forall n: nat :: lo < n <= hi ==> !Hit(t[..n])
  }

  lemma NoHitNext(t: seq<byte>, lo: nat, hi: nat)
    requires lo <= hi < |t| && NoHit(t, lo, hi) && !Hit(t[..hi + 1])
    ensures NoHit(t, lo, hi + 1)
  {}

  ghost predicate Detects(t: seq<byte>) {
    exists n: nat :: n <= |t| && Hit(t[..n])
  }

  /** A stream that gives the parser a candidate proves the baud rate to the probe, and no later. */
  lemma CandidateImpliesDetection(t: seq<byte>)
    requires Emitted(t) != []
    ensures Detects(t)
  {
    var g, r := EmittedVerbatim(t, 0);
    var u := t[..r.hi];
    assert u[r.lo..] == t[r.lo..r.hi];
    ClosedExact(u, r.lo);
    assert Hit(u);
  }
}
