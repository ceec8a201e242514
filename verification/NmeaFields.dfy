/** Field extraction and the HDOP number of main/gnss.c. */
module NmeaFields {
  import opened Nmea

  // ---------------------------------------------------------------- fields

  function CommaCount(s: seq<byte>): nat {
    if s == [] then 0
    else CommaCount(s[..|s| - 1]) + (if s[|s| - 1] == COMMA then 1 else 0)
  }

  lemma {:induction false} CommaCountMonotone(s: seq<byte>, m: nat, n: nat)
    requires m <= n <= |s|
    ensures CommaCount(s[..m]) <= CommaCount(s[..n])
    ensures m < n && s[n - 1] == COMMA ==> CommaCount(s[..m]) < CommaCount(s[..n])
    decreases n
  {
    if m < n {
      CommaCountMonotone(s, m, n - 1);
      assert s[..n][..n - 1] == s[..n - 1];
    }
  }

  /** t[lo..hi] is the n-th comma-separated field after the address field of line t: n commas
      precede it, no "*" ends the list before it, and it stops at ",", at "*" or at the end. */
  ghost predicate IsField(t: seq<byte>, n: int, lo: nat, hi: nat) {
    && 0 < lo <= hi <= |t|
    && t[lo - 1] == COMMA
    && CommaCount(t[..lo]) == n
    && (forall j, k :: 0 <= j < k < lo && t[j] == COMMA ==> t[k] != STAR)
    && (forall k :: lo <= k < hi ==> t[k] != COMMA && t[k] != STAR)
    && (hi < |t| ==> t[hi] == COMMA || t[hi] == STAR)
  }

  lemma FieldUnique(t: seq<byte>, n: int, lo: nat, hi: nat, lo': nat, hi': nat)
    requires IsField(t, n, lo, hi) && IsField(t, n, lo', hi')
    ensures lo == lo' && hi == hi'
  {
    if lo < lo' {
      CommaCountMonotone(t, lo, lo');
    } else if lo' < lo {
      CommaCountMonotone(t, lo', lo);
    }
  }

  /** The n-th field after the address field of line t, if there is one and it is not empty. */
  ghost function FieldOf(t: seq<byte>, n: int): Option<seq<byte>> {
    if exists lo: nat, hi: nat :: IsField(t, n, lo, hi) && lo < hi then
      var lo: nat, hi: nat :| IsField(t, n, lo, hi) && lo < hi;
      Some(t[lo..hi])
    else None
  }

  ghost function Field(s: seq<byte>, n: int): Option<seq<byte>> {
    FieldOf(Trimmed(s), n)
  }

  lemma FieldIs(t: seq<byte>, n: int, lo: nat, hi: nat)
    requires IsField(t, n, lo, hi)
    ensures FieldOf(t, n) == if lo < hi then Some(t[lo..hi]) else None
  {
    forall lo': nat, hi': nat | IsField(t, n, lo', hi') ensures lo' == lo && hi' == hi {
      FieldUnique(t, n, lo, hi, lo', hi');
    }
  }

  /** The scan has read t[..cursor], found field number `current` starting at start, and met no
      "*" after the first comma. */
  ghost predicate Scanning(t: seq<byte>, first: nat, start: nat, cursor: nat, current: int) {
    && first < start <= cursor <= |t|
    && t[first] == COMMA && t[start - 1] == COMMA
    && (forall i | 0 <= i < first :: t[i] != COMMA)
    && CommaCount(t[..start]) == current
    && (forall k | start <= k < cursor :: t[k] != COMMA && t[k] != STAR)
    && (forall k | first < k < cursor :: t[k] != STAR)
  }

  /** The field lookup, as coded: trim, find the first comma, scan the fields after it. */
  method GetFieldRange(sentence: array<byte>, size: nat, fieldNumber: int)
    returns (found: bool, start: nat, fieldLen: nat)
    requires size <= sentence.Length
    ensures start + fieldLen <= size
    ensures Field(sentence[..size], fieldNumber) == if found then Some(sentence[start..start + fieldLen]) else None
  {
    var len := TrimmedLength(sentence, size);
    var cursor := IndexOf(sentence, 0, len, COMMA);
    ghost var t := sentence[..len];
    SubSlice(sentence, len, 0, cursor);
    assert t[0..cursor] == t[..cursor];
    if cursor == len {
      CommalessLine(t, fieldNumber);
      return false, 0, 0;
    }
    FieldAfterComma(t, cursor, fieldNumber);
    found, start, fieldLen := ScanFields(sentence, cursor + 1, len, fieldNumber);
    if found { SubSlice(sentence, len, start, start + fieldLen); }
  }

  method ScanFields(sentence: array<byte>, from: nat, len: nat, fieldNumber: int)
    returns (found: bool, start: nat, fieldLen: nat)
    requires from <= len <= sentence.Length
    ensures start + fieldLen <= len
    ensures Scan(sentence[..len], from, from, 1, fieldNumber) == if found then Some((start, start + fieldLen)) else None
  {
    ghost var t := sentence[..len];
    var cursor, currentField := from, 1;
    start := from;
    while cursor <= len
      invariant start <= cursor <= len
      invariant Scan(t, from, from, 1, fieldNumber) == Scan(t, start, cursor, currentField, fieldNumber)
    {
      if cursor == len || sentence[cursor] == COMMA || sentence[cursor] == STAR {
        if currentField == fieldNumber {
          fieldLen := cursor - start;
          return fieldLen > 0, start, fieldLen;
        }
        if cursor == len || sentence[cursor] == STAR {
          return false, 0, 0;
        }
        currentField := currentField + 1;
        start := cursor + 1;
      }
      cursor := cursor + 1;
    }
    assert false;
  }

  /** What is left of the scan: it stands at cursor, in field number `current`, which began at start. */
  function Scan(t: seq<byte>, start: nat, cursor: nat, current: int, n: int): (r: Option<(nat, nat)>)
    requires start <= cursor <= |t|
    ensures r.Some? ==> r.value.0 < r.value.1 <= |t|
    decreases |t| - cursor
  {
    if cursor < |t| && t[cursor] != COMMA && t[cursor] != STAR then Scan(t, start, cursor + 1, current, n)
    else if current == n then (if start < cursor then Some((start, cursor)) else None)
    else if cursor == |t| || t[cursor] == STAR then None
    else Scan(t, cursor + 1, cursor + 1, current + 1, n)
  }

  function Slice(t: seq<byte>, r: Option<(nat, nat)>): Option<seq<byte>>
    requires r.Some? ==> r.value.0 <= r.value.1 <= |t|
  {
    if r.Some? then Some(t[r.value.0..r.value.1]) else None
  }

  lemma FieldAfterComma(t: seq<byte>, comma: nat, n: int)
    requires comma < |t| && t[comma] == COMMA && COMMA !in t[..comma]
    ensures FieldOf(t, n) == Slice(t, Scan(t, comma + 1, comma + 1, 1, n))
  {
    FirstField(t, comma);
    ScanFinds(t, comma, comma + 1, comma + 1, 1, n);
  }

  lemma {:induction false} ScanFinds(t: seq<byte>, first: nat, start: nat, cursor: nat, current: int, n: int)
    requires Scanning(t, first, start, cursor, current)
    requires n < 1 || current <= n
    ensures FieldOf(t, n) == Slice(t, Scan(t, start, cursor, current, n))
    decreases |t| - cursor
  {
    if cursor < |t| && t[cursor] != COMMA && t[cursor] != STAR {
      ScanFinds(t, first, start, cursor + 1, current, n);
    } else if current == n {
      FieldReached(t, first, start, cursor, current);
    } else if cursor == |t| || t[cursor] == STAR {
      NoLaterField(t, n, first, start, cursor, current);
    } else {
      NextField(t, first, start, cursor, current);
      ScanFinds(t, first, cursor + 1, cursor + 1, current + 1, n);
    }
  }

  lemma FirstField(t: seq<byte>, first: nat)
    requires first < |t| && t[first] == COMMA && COMMA !in t[..first]
    ensures Scanning(t, first, first + 1, first + 1, 1)
  {
    assert forall i | 0 <= i < first :: t[i] == t[..first][i];
    NoCommas(t, first);
    assert t[..first + 1][..first] == t[..first];
  }

  lemma NextField(t: seq<byte>, first: nat, start: nat, cursor: nat, current: int)
    requires Scanning(t, first, start, cursor, current) && cursor < |t| && t[cursor] == COMMA
    ensures Scanning(t, first, cursor + 1, cursor + 1, current + 1)
  {
    CommaSteps(t, start, cursor);
  }

  lemma CommalessLine(t: seq<byte>, n: int)
    requires COMMA !in t
    ensures FieldOf(t, n) == None
  {}

  lemma FieldReached(t: seq<byte>, first: nat, start: nat, cursor: nat, current: int)
    requires Scanning(t, first, start, cursor, current)
    requires cursor == |t| || t[cursor] == COMMA || t[cursor] == STAR
    ensures FieldOf(t, current) == if start < cursor then Some(t[start..cursor]) else None
  {
    FieldIs(t, current, start, cursor);
  }

  lemma {:induction false} NoCommas(t: seq<byte>, n: nat)
    requires n <= |t| && forall i | 0 <= i < n :: t[i] != COMMA
    ensures CommaCount(t[..n]) == 0
  {
    if n == 0 {
    } else {
      NoCommas(t, n - 1);
      assert t[..n][..n - 1] == t[..n - 1];
    }
  }

  lemma {:induction false} CommaFree(t: seq<byte>, lo: nat, hi: nat)
    requires lo <= hi <= |t| && forall i | lo <= i < hi :: t[i] != COMMA
    ensures CommaCount(t[..hi]) == CommaCount(t[..lo])
    decreases hi
  {
    if lo < hi {
      CommaFree(t, lo, hi - 1);
      assert t[..hi][..hi - 1] == t[..hi - 1];
    }
  }

  lemma CommaSteps(t: seq<byte>, lo: nat, hi: nat)
    requires lo <= hi < |t| && (forall i | lo <= i < hi :: t[i] != COMMA) && t[hi] == COMMA
    ensures CommaCount(t[..hi + 1]) == CommaCount(t[..lo]) + 1
  {
    CommaFree(t, lo, hi);
    assert t[..hi + 1][..hi] == t[..hi];
  }

  lemma NoLaterField(t: seq<byte>, n: int, first: nat, start: nat, cursor: nat, current: int)
    requires Scanning(t, first, start, cursor, current)
    requires cursor == |t| || t[cursor] == STAR
    requires n < 1 || current < n
    ensures FieldOf(t, n) == None
  {
    forall lo: nat, hi: nat ensures !IsField(t, n, lo, hi) {
      if IsField(t, n, lo, hi) {
        CommaCountMonotone(t, 0, lo);
        if lo <= cursor {
          CommaCountMonotone(t, lo, cursor);
          CommaFree(t, start, cursor);
        }
        assert false;
      }
    }
  }

  // ---------------------------------------------------------------- decimal numbers

  const INT32_MAX := 0x7FFF_FFFF

  /** Two's-complement truncation to 32 bits. */
  function Wrap32(x: int): (w: int)
    ensures -0x8000_0000 <= w <= INT32_MAX
    ensures -0x8000_0000 <= x <= INT32_MAX ==> w == x
  {
    var m := x % 0x1_0000_0000;
    if m > INT32_MAX then m - 0x1_0000_0000 else m
  }

  lemma WrapAffine(x: int, m: int, c: int)
    ensures Wrap32(Wrap32(x) * m + c) == Wrap32(x * m + c)
  {
    var q := if x % 0x1_0000_0000 > INT32_MAX then x / 0x1_0000_0000 + 1 else x / 0x1_0000_0000;
    assert Wrap32(x) == x - q * 0x1_0000_0000;
    ShiftedProduct(x, q, m);
    WrapShift(x * m + c, q * m);
  }

  lemma ShiftedProduct(x: int, q: int, m: int)
    ensures (x - q * 0x1_0000_0000) * m == x * m - (q * m) * 0x1_0000_0000
  {}

  lemma WrapShift(a: int, k: int)
    ensures Wrap32(a - k * 0x1_0000_0000) == Wrap32(a)
  {}

  predicate IsDigit(b: byte) {
    0x30 <= b <= 0x39
  }

  function DigitValue(b: byte): (v: nat)
    ensures v <= 9
  {
    if IsDigit(b) then b - 0x30 else 0
  }

  /** The number a digit string spells. */
  function Horner(ds: seq<byte>): nat {
    if ds == [] then 0 else Horner(ds[..|ds| - 1]) * 10 + DigitValue(ds[|ds| - 1])
  }

  lemma HornerAppend(ds: seq<byte>, b: byte)
    ensures Horner(ds + [b]) == Horner(ds) * 10 + DigitValue(b)
  {}

  function Pow10(n: nat): (p: nat)
    ensures p >= 1
  {
    if n == 0 then 1 else 10 * Pow10(n - 1)
  }

  function DotIndex(f: seq<byte>): (d: nat)
    ensures d <= |f|
    ensures forall i | 0 <= i < d :: f[i] != DOT
    ensures d < |f| ==> f[d] == DOT
  {
    if f == [] then 0
    else if DotIndex(f[..|f| - 1]) < |f| - 1 then DotIndex(f[..|f| - 1])
    else if f[|f| - 1] == DOT then |f| - 1 else |f|
  }

  function IntegerDigits(f: seq<byte>): seq<byte> {
    f[..DotIndex(f)]
  }

  function FractionDigits(f: seq<byte>): seq<byte> {
    if DotIndex(f) < |f| then f[DotIndex(f) + 1..] else []
  }

  predicate AllDigits(s: seq<byte>) {
    forall i | 0 <= i < |s| :: IsDigit(s[i])
  }

  /** Digits with at most one decimal point among them. */
  predicate Readable(f: seq<byte>) {
    AllDigits(IntegerDigits(f)) && AllDigits(FractionDigits(f))
  }

  /** Such a string with at least one digit. */
  predicate IsDecimal(f: seq<byte>) {
    Readable(f) && |IntegerDigits(f)| + |FractionDigits(f)| > 0
  }

  /** The digits of a fraction that count: three at most. */
  function Head(fraction: seq<byte>): (h: seq<byte>)
    ensures |h| <= 3
  {
    if |fraction| < 3 then fraction else fraction[..3]
  }

  function Thousandths(fraction: seq<byte>): nat {
    Horner(Head(fraction)) * Pow10(3 - |Head(fraction)|)
  }

  /** The thousandths a decimal spells, over the integers. */
  function ExactMilli(f: seq<byte>): nat {
    Horner(IntegerDigits(f)) * 1000 + Thousandths(FractionDigits(f))
  }

  /** The number a decimal spells is Numerator(f) / Pow10(|FractionDigits(f)|). */
  function Numerator(f: seq<byte>): nat {
    Horner(IntegerDigits(f) + FractionDigits(f))
  }

  function Scale(f: seq<byte>): nat {
    Pow10(|FractionDigits(f)|)
  }

  lemma {:induction false} HornerConcat(a: seq<byte>, b: seq<byte>)
    ensures Horner(a + b) == Horner(a) * Pow10(|b|) + Horner(b)
    decreases |b|
  {
    if b == [] {
      assert a + b == a;
    } else {
      var n := |b| - 1;
      HornerConcat(a, b[..n]);
      assert (a + b)[..|a + b| - 1] == a + b[..n];
      ShiftDigits(Horner(a), Pow10(n), Horner(b[..n]));
    }
  }

  lemma ShiftDigits(x: nat, p: nat, y: nat)
    ensures (x * p + y) * 10 == x * (10 * p) + y * 10
  {}

  lemma {:induction false} HornerBound(s: seq<byte>)
    ensures Horner(s) < Pow10(|s|)
  {
    if s == [] {
    } else {
      HornerBound(s[..|s| - 1]);
    }
  }

  lemma {:induction false} Pow10Sum(m: nat, n: nat)
    ensures Pow10(m + n) == Pow10(m) * Pow10(n)
  {
    if m == 0 {
    } else {
      Pow10Sum(m - 1, n);
      assert 10 * (Pow10(m - 1) * Pow10(n)) == (10 * Pow10(m - 1)) * Pow10(n);
    }
  }

  /** ExactMilli(f) is the floor of 1000 times the number f spells. */
  lemma MilliIsFloor(f: seq<byte>)
    ensures ExactMilli(f) * Scale(f) <= 1000 * Numerator(f) < (ExactMilli(f) + 1) * Scale(f)
  {
    var i, fr := IntegerDigits(f), FractionDigits(f);
    HornerConcat(i, fr);
    FractionParts(fr);
    if |fr| <= 3 {
      ShortFraction(Horner(i), Horner(fr), Pow10(3 - |fr|), Pow10(|fr|));
    } else {
      LongFraction(Horner(i), Horner(fr[..3]), Horner(fr[3..]), Pow10(|fr| - 3), Pow10(|fr|));
    }
  }

  lemma FractionParts(fr: seq<byte>)
    ensures |fr| <= 3 ==> Thousandths(fr) == Horner(fr) * Pow10(3 - |fr|) && Pow10(3 - |fr|) * Pow10(|fr|) == 1000
    ensures |fr| > 3 ==> Thousandths(fr) == Horner(fr[..3]) && Pow10(|fr|) == 1000 * Pow10(|fr| - 3)
    ensures |fr| > 3 ==> Horner(fr) == Horner(fr[..3]) * Pow10(|fr| - 3) + Horner(fr[3..])
    ensures |fr| > 3 ==> Horner(fr[3..]) < Pow10(|fr| - 3)
  {
    Thousand();
    if |fr| <= 3 {
      Pow10Sum(3 - |fr|, |fr|);
      if |fr| == 3 { assert fr[..3] == fr; }
    } else {
      HornerConcat(fr[..3], fr[3..]);
      assert fr[..3] + fr[3..] == fr;
      HornerBound(fr[3..]);
      Pow10Sum(3, |fr| - 3);
    }
  }

  lemma Thousand()
    ensures Pow10(3) == 1000 && Pow10(0) == 1
  {}

  lemma ShortFraction(h: nat, x: nat, q: nat, p: nat)
    requires q * p == 1000 && p >= 1
    ensures (h * 1000 + x * q) * p == 1000 * (h * p + x)
    ensures (h * 1000 + x * q + 1) * p == 1000 * (h * p + x) + p
  {}

  lemma LongFraction(h: nat, a: nat, r: nat, q: nat, p: nat)
    requires p == 1000 * q && r < q
    ensures (h * 1000 + a) * p <= 1000 * (h * p + (a * q + r)) < (h * 1000 + a + 1) * p
  {}

  /** v <= w, cross-multiplied. */
  predicate DecimalLeq(f: seq<byte>, g: seq<byte>) {
    Numerator(f) * Scale(g) <= Numerator(g) * Scale(f)
  }

  lemma MilliMonotone(f: seq<byte>, g: seq<byte>)
    requires DecimalLeq(f, g)
    ensures ExactMilli(f) <= ExactMilli(g)
  {
    MilliIsFloor(f);
    MilliIsFloor(g);
    MilliCross(ExactMilli(f), ExactMilli(g), Numerator(f), Numerator(g), Scale(f), Scale(g));
  }

  lemma MilliCross(m: nat, m': nat, n: nat, n': nat, p: nat, p': nat)
    requires p >= 1 && p' >= 1
    requires m * p <= 1000 * n && 1000 * n' < (m' + 1) * p' && n * p' <= n' * p
    ensures m <= m'
  {}

  lemma MulLeft(a: int, b: int, c: nat)
    requires a <= b
    ensures a * c <= b * c
  {}

  lemma SixDigitsFit(f: seq<byte>)
    requires |IntegerDigits(f)| <= 6
    ensures ExactMilli(f) <= INT32_MAX
  {
    var fr := FractionDigits(f);
    HornerBound(IntegerDigits(f));
    Pow10Sum(6 - |IntegerDigits(f)|, |IntegerDigits(f)|);
    MulLeft(1, Pow10(6 - |IntegerDigits(f)|), Pow10(|IntegerDigits(f)|));
    assert Pow10(6) == 10 * (10 * (10 * (10 * (10 * (10 * Pow10(0))))));
    if |fr| >= 3 {
      HornerBound(fr[..3]);
      assert Pow10(3) == 1000;
    } else {
      HornerBound(fr);
      Pow10Sum(|fr|, 3 - |fr|);
      assert Pow10(3) == 1000;
      MulLeft(Horner(fr), Pow10(|fr|), Pow10(3 - |fr|));
    }
  }

  // ---------------------------------------------------------------- the parser of decimals

  /** The variables of the parsing loop, and what they are once it has read the prefix g. */
  datatype DecimalState = DecimalState(integerPart: int, fractionPart: nat, fractionDigits: nat,
                                       seenDot: bool, seenDigit: bool)

  ghost function StateAfter(g: seq<byte>): DecimalState {
    Summary(IntegerDigits(g), FractionDigits(g), DotIndex(g) < |g|)
  }

  function Summary(i: seq<byte>, fr: seq<byte>, dot: bool): DecimalState {
    DecimalState(Horner(i), Horner(Head(fr)), |Head(fr)|, dot, |i| + |fr| > 0)
  }

  lemma SplitAppend(g: seq<byte>, b: byte)
    ensures DotIndex(g) == |g| && b == DOT ==>
              DotIndex(g + [b]) == |g| && IntegerDigits(g + [b]) == IntegerDigits(g)
              && FractionDigits(g + [b]) == FractionDigits(g) == []
    ensures DotIndex(g) == |g| && b != DOT ==>
              DotIndex(g + [b]) == |g + [b]| && IntegerDigits(g + [b]) == IntegerDigits(g) + [b]
              && FractionDigits(g + [b]) == FractionDigits(g) == []
    ensures DotIndex(g) < |g| ==>
              DotIndex(g + [b]) == DotIndex(g) && IntegerDigits(g + [b]) == IntegerDigits(g)
              && FractionDigits(g + [b]) == FractionDigits(g) + [b]
  {}

  lemma HeadAppend(fr: seq<byte>, b: byte)
    ensures if |fr| < 3
            then Horner(Head(fr + [b])) == Horner(Head(fr)) * 10 + DigitValue(b) && |Head(fr + [b])| == |Head(fr)| + 1
            else Head(fr + [b]) == Head(fr)
  {
    if |fr| < 3 {
      assert Head(fr + [b]) == fr + [b] && Head(fr) == fr;
      HornerAppend(fr, b);
    }
  }

  lemma ReadableAppend(g: seq<byte>, b: byte)
    ensures Readable(g + [b]) <==> Readable(g) && (IsDigit(b) || (b == DOT && DotIndex(g) == |g|))
  {
    SplitAppend(g, b);
    var i, fr := IntegerDigits(g), FractionDigits(g);
    AllDigitsAppend(i, b);
    AllDigitsAppend(fr, b);
  }

  lemma AllDigitsAppend(s: seq<byte>, b: byte)
    ensures AllDigits(s + [b]) <==> AllDigits(s) && IsDigit(b)
  {
    assert forall i | 0 <= i < |s| :: (s + [b])[i] == s[i];
    assert (s + [b])[|s|] == b;
  }

  /** One round of the parsing loop on unbounded numbers; None once it has given up. */
  function Round(st: Option<DecimalState>, b: byte): Option<DecimalState> {
    match st
    case None => None
    case Some(st) =>
      if b == DOT then (if st.seenDot then None else Some(st.(seenDot := true)))
      else if !IsDigit(b) then None
      else if !st.seenDot then Some(st.(integerPart := st.integerPart * 10 + DigitValue(b), seenDigit := true))
      else if st.fractionDigits < 3 then
        Some(st.(fractionPart := st.fractionPart * 10 + DigitValue(b), fractionDigits := st.fractionDigits + 1, seenDigit := true))
      else Some(st.(seenDigit := true))
  }

  function Loop(g: seq<byte>): Option<DecimalState> {
    if g == [] then Some(DecimalState(0, 0, 0, false, false))
    else Round(Loop(g[..|g| - 1]), g[|g| - 1])
  }

  ghost function Reading(g: seq<byte>): Option<DecimalState> {
    if Readable(g) then Some(StateAfter(g)) else None
  }

  lemma RoundInteger(i: seq<byte>, b: byte)
    requires IsDigit(b)
    ensures Round(Some(Summary(i, [], false)), b) == Some(Summary(i + [b], [], false))
  {}

  lemma RoundFraction(i: seq<byte>, fr: seq<byte>, b: byte)
    requires IsDigit(b)
    ensures Round(Some(Summary(i, fr, true)), b) == Some(Summary(i, fr + [b], true))
  {
    HeadAppend(fr, b);
  }

  lemma RoundReads(g: seq<byte>, b: byte)
    ensures Round(Reading(g), b) == Reading(g + [b])
  {
    ReadableAppend(g, b);
    if Readable(g) && Readable(g + [b]) {
      RoundReadsOn(g, b);
    }
  }

  lemma RoundReadsOn(g: seq<byte>, b: byte)
    requires IsDigit(b) || (b == DOT && DotIndex(g) == |g|)
    ensures Round(Some(StateAfter(g)), b) == Some(StateAfter(g + [b]))
  {
    SplitAppend(g, b);
    var i, fr := IntegerDigits(g), FractionDigits(g);
    if b == DOT {
      assert StateAfter(g + [b]) == Summary(i, [], true);
    } else if DotIndex(g) == |g| {
      assert StateAfter(g + [b]) == Summary(i + [b], [], false);
      RoundInteger(i, b);
    } else {
      assert StateAfter(g + [b]) == Summary(i, fr + [b], true);
      RoundFraction(i, fr, b);
    }
  }

  /** The loop gives up exactly on what is not digits with at most one point, and otherwise holds
      the two digit strings' numbers. */
  lemma {:induction false} LoopReads(g: seq<byte>)
    ensures Loop(g) == Reading(g)
  {
    if g == [] {
    } else {
      var p, b := g[..|g| - 1], g[|g| - 1];
      assert g == p + [b];
      LoopReads(p);
      RoundReads(p, b);
    }
  }

  /** The decimal parser, as coded; the int arithmetic is that of the 32-bit target. */
  method ParseDecimalMilli(f: seq<byte>) returns (value: Option<int>)
    ensures value == if IsDecimal(f) then Some(Wrap32(ExactMilli(f))) else None
  {
    var st := DigitLoop(f);
    LoopReads(f);
    if st.None? || !st.value.seenDigit {
      return None;
    }
    var milli := Thousands(st.value.fractionPart, st.value.fractionDigits);
    WrapSteps(Horner(IntegerDigits(f)), 1000, milli);
    return Some(Wrap32(Wrap32(st.value.integerPart * 1000) + milli));
  }

  method DigitLoop(f: seq<byte>) returns (r: Option<DecimalState>)
    ensures match Loop(f)
            case None => r == None
            case Some(st) => r == Some(st.(integerPart := Wrap32(st.integerPart)))
  {
    var integerPart := 0;
    var fractionPart: nat, fractionDigits: nat := 0, 0;
    ghost var exact := 0;
    var seenDot, seenDigit := false, false;
    for index := 0 to |f|
      invariant Loop(f[..index]) == Some(DecimalState(exact, fractionPart, fractionDigits, seenDot, seenDigit))
      invariant integerPart == Wrap32(exact)
    {
      var b := f[index];
      assert f[..index + 1][..index] == f[..index];
      if b == DOT {
        if seenDot {
          GivesUp(f, index + 1);
          return None;
        }
        seenDot := true;
        continue;
      }
      if b < 0x30 || b > 0x39 {
        GivesUp(f, index + 1);
        return None;
      }
      seenDigit := true;
      if !seenDot {
        WrapSteps(exact, 10, DigitValue(b));
        integerPart := Wrap32(Wrap32(integerPart * 10) + DigitValue(b));
        exact := exact * 10 + DigitValue(b);
      } else if fractionDigits < 3 {
        fractionPart := fractionPart * 10 + DigitValue(b);
        fractionDigits := fractionDigits + 1;
      }
    }
    assert f[..|f|] == f;
    return Some(DecimalState(integerPart, fractionPart, fractionDigits, seenDot, seenDigit));
  }

  lemma {:induction false} GivesUp(f: seq<byte>, n: nat)
    requires n <= |f| && Loop(f[..n]).None?
    ensures Loop(f).None?
    decreases |f| - n
  {
    if n < |f| {
      assert f[..n + 1][..n] == f[..n];
      GivesUp(f, n + 1);
    } else {
      assert f[..n] == f;
    }
  }

  /** Fills the fraction up to three digits. */
  method Thousands(fractionPart: nat, fractionDigits: nat) returns (milli: nat)
    requires fractionDigits <= 3
    ensures milli == fractionPart * Pow10(3 - fractionDigits)
  {
    milli := fractionPart;
    var k := fractionDigits;
    while k < 3
      invariant k <= 3
      invariant milli * Pow10(3 - k) == fractionPart * Pow10(3 - fractionDigits)
    {
      Rescale(milli, 3 - k);
      milli := milli * 10;
      k := k + 1;
    }
  }

  /** Wrapping every product and sum amounts to wrapping once. */
  lemma WrapSteps(x: int, m: int, c: int)
    ensures Wrap32(Wrap32(Wrap32(x) * m) + c) == Wrap32(x * m + c)
  {
    WrapAffine(Wrap32(x) * m, 1, c);
    WrapAffine(x, m, c);
  }

  lemma Rescale(x: int, n: nat)
    requires n > 0
    ensures (x * 10) * Pow10(n - 1) == x * Pow10(n)
  {}

  // ---------------------------------------------------------------- HDOP

  const GGA: seq<byte> := [0x47, 0x47, 0x41]
  const RMC: seq<byte> := [0x52, 0x4D, 0x43]

  predicate HasType(s: seq<byte>, kind: seq<byte>)
    requires |kind| == 3
  {
    |s| >= PREFIX_LEN && s[TYPE_OFFSET..TYPE_OFFSET + 3] == kind
  }

  /** The quality a GGA sentence carries: its eighth field, in wrapped thousandths. */
  ghost function Hdop(s: seq<byte>): Option<int> {
    if HasType(s, GGA) && s[0] == DOLLAR && Field(s, 8).Some? && IsDecimal(Field(s, 8).value)
    then Some(Wrap32(ExactMilli(Field(s, 8).value)))
    else None
  }

  method TypeIs(sentence: array<byte>, kind: seq<byte>) returns (same: bool)
    requires |kind| == 3 && sentence.Length >= PREFIX_LEN
    ensures same <==> sentence[TYPE_OFFSET..TYPE_OFFSET + 3] == kind
  {
    same := sentence[TYPE_OFFSET] == kind[0] && sentence[TYPE_OFFSET + 1] == kind[1] && sentence[TYPE_OFFSET + 2] == kind[2];
  }

  method ParseHdopMilli(sentence: array<byte>, size: nat) returns (hdop: Option<int>)
    requires size <= sentence.Length
    ensures hdop == Hdop(sentence[..size])
  {
    if size < PREFIX_LEN || sentence[0] != DOLLAR {
      return None;
    }
    var gga := TypeIs(sentence, GGA);
    assert sentence[..size][TYPE_OFFSET..TYPE_OFFSET + 3] == sentence[TYPE_OFFSET..TYPE_OFFSET + 3];
    if !gga {
      return None;
    }
    var found, start, len := GetFieldRange(sentence, size, 8);
    if !found {
      return None;
    }
    hdop := ParseDecimalMilli(sentence[start..start + len]);
  }

  /** As long as both numbers keep their thousandths below 2^31, a number no larger parses to an HDOP no
      larger, so that an HDOP preferred because it is smaller stands for a smaller number. Numbers that
      differ by less than a thousandth may tie. */
  lemma HdopOrder(s: seq<byte>, s': seq<byte>)
    requires Hdop(s).Some? && Hdop(s').Some?
    requires ExactMilli(Field(s, 8).value) <= INT32_MAX && ExactMilli(Field(s', 8).value) <= INT32_MAX
    ensures DecimalLeq(Field(s, 8).value, Field(s', 8).value) ==> Hdop(s).value <= Hdop(s').value
    ensures Hdop(s).value < Hdop(s').value ==> !DecimalLeq(Field(s', 8).value, Field(s, 8).value)
  {
    var f, f' := Field(s, 8).value, Field(s', 8).value;
    if DecimalLeq(f, f') {
      MilliMonotone(f, f');
    }
    if DecimalLeq(f', f) {
      MilliMonotone(f', f);
    }
  }

  const ONE: seq<byte> := [0x31]
  const LARGE: seq<byte> := [0x32, 0x31, 0x34, 0x37, 0x34, 0x38, 0x34]

  /** Beyond the int the order is lost: 2147484 reads as less than 1. */
  lemma HdopOrderCanFail()
    ensures IsDecimal(ONE) && IsDecimal(LARGE) && DecimalLeq(ONE, LARGE)
    ensures Wrap32(ExactMilli(LARGE)) < Wrap32(ExactMilli(ONE))
  {
    Spell();
    Undotted(ONE);
    Undotted(LARGE);
  }

  lemma Spell()
    ensures Horner(ONE) == 1 && Horner(LARGE) == 2147484
  {
    HornerNext([], 0x31, ONE);
    HornerNext([], 0x32, [0x32]);
    HornerNext([0x32], 0x31, [0x32, 0x31]);
    HornerNext([0x32, 0x31], 0x34, [0x32, 0x31, 0x34]);
    HornerNext([0x32, 0x31, 0x34], 0x37, [0x32, 0x31, 0x34, 0x37]);
    HornerNext([0x32, 0x31, 0x34, 0x37], 0x34, [0x32, 0x31, 0x34, 0x37, 0x34]);
    HornerNext([0x32, 0x31, 0x34, 0x37, 0x34], 0x38, [0x32, 0x31, 0x34, 0x37, 0x34, 0x38]);
    HornerNext([0x32, 0x31, 0x34, 0x37, 0x34, 0x38], 0x34, LARGE);
  }

  lemma HornerNext(ds: seq<byte>, b: byte, r: seq<byte>)
    requires r == ds + [b]
    ensures Horner(r) == Horner(ds) * 10 + DigitValue(b)
  {}

  /** Digits without a point are a whole number. */
  lemma Undotted(f: seq<byte>)
    requires f != [] && AllDigits(f)
    ensures IsDecimal(f) && ExactMilli(f) == Horner(f) * 1000 && Numerator(f) == Horner(f) && Scale(f) == 1
  {
    assert DotIndex(f) == |f|;
    assert f[..|f|] == f && f + [] == f;
    Thousand();
  }

  // ---------------------------------------------------------------- decimals, written and read

  /** The number n in decimal digits. */
  function Rendered(n: nat): (f: seq<byte>)
    ensures f != []
  {
    (if n < 10 then [] else Rendered(n / 10)) + ['0' as int + n % 10]
  }

  lemma DigitAppended(ds: seq<byte>, d: nat)
    requires AllDigits(ds) && d < 10
    ensures AllDigits(ds + ['0' as int + d]) && Horner(ds + ['0' as int + d]) == 10 * Horner(ds) + d
  {
    HornerNext(ds, '0' as int + d, ds + ['0' as int + d]);
  }

  lemma {:induction false} RenderedExact(n: nat)
    ensures AllDigits(Rendered(n)) && Horner(Rendered(n)) == n
  {
    if n < 10 {
      DigitAppended([], n);
    } else {
      RenderedExact(n / 10);
      DigitAppended(Rendered(n / 10), n % 10);
    }
  }

  /** n and m thousandths, with the decimal point. */
  function Decimal(n: nat, m: nat): seq<byte>
    requires m < 1000
  {
    Rendered(n) + ['.' as int] + ThreeDigits(m)
  }

  function ThreeDigits(m: nat): seq<byte>
    requires m < 1000
  {
    ['0' as int + m / 100, '0' as int + m / 10 % 10, '0' as int + m % 10]
  }

  lemma ThreeExact(m: nat)
    requires m < 1000
    ensures AllDigits(ThreeDigits(m)) && Horner(ThreeDigits(m)) == m && Head(ThreeDigits(m)) == ThreeDigits(m)
  {
    var f := ThreeDigits(m);
    HornerNext([], f[0], f[..1]);
    HornerNext(f[..1], f[1], f[..2]);
    HornerNext(f[..2], f[2], f);
  }

  /** Every number of thousandths survives being written and read. */
  lemma DecimalRoundTrip(n: nat, m: nat)
    requires m < 1000
    ensures IsDecimal(Decimal(n, m)) && ExactMilli(Decimal(n, m)) == 1000 * n + m
    ensures IsDecimal(Rendered(n)) && ExactMilli(Rendered(n)) == 1000 * n
  {
    var f := Decimal(n, m);
    RenderedExact(n);
    ThreeExact(m);
    Undotted(Rendered(n));
    Dotted(f, |Rendered(n)|);
    assert IntegerDigits(f) == Rendered(n) && FractionDigits(f) == ThreeDigits(m);
    assert Pow10(0) == 1;
  }

  lemma {:induction false} Dotted(f: seq<byte>, d: nat)
    requires d < |f| && f[d] == DOT && forall k :: 0 <= k < d ==> f[k] != DOT
    ensures DotIndex(f) == d
  {}

  /** Nothing but digits and points. */
  predicate Numeric(f: seq<byte>) {
    forall k :: 0 <= k < |f| ==> f[k] == '.' as int || '0' as int <= f[k] <= '9' as int
  }

  predicate OnePoint(f: seq<byte>) {
    forall j, k :: 0 <= j < k < |f| ==> f[j] != '.' as int || f[k] != '.' as int
  }

  predicate SomeDigit(f: seq<byte>) {
    exists k :: 0 <= k < |f| && '0' as int <= f[k] <= '9' as int
  }

  /** Digits with at most one point among them, and at least one digit: exactly these are read. */
  lemma DecimalExact(f: seq<byte>)
    ensures IsDecimal(f) <==> Numeric(f) && OnePoint(f) && SomeDigit(f)
  {
    if IsDecimal(f) {
      ReadIsNumeric(f);
    }
    if Numeric(f) && OnePoint(f) && SomeDigit(f) {
      NumericIsRead(f);
    }
  }

  lemma ReadIsNumeric(f: seq<byte>)
    requires IsDecimal(f)
    ensures Numeric(f) && OnePoint(f) && SomeDigit(f)
  {
    var d, i, fr := DotIndex(f), IntegerDigits(f), FractionDigits(f);
    forall k | 0 <= k < |f| && k != d ensures IsDigit(f[k]) {
      if k < d { assert IsDigit(i[k]); } else { assert IsDigit(fr[k - d - 1]); }
    }
    if |i| > 0 { assert IsDigit(f[0]); } else { assert IsDigit(f[d + 1]); }
  }

  lemma NumericIsRead(f: seq<byte>)
    requires Numeric(f) && OnePoint(f) && SomeDigit(f)
    ensures IsDecimal(f)
  {
    var d, i, fr := DotIndex(f), IntegerDigits(f), FractionDigits(f);
    forall k | 0 <= k < |i| ensures IsDigit(i[k]) {
      assert i[k] == f[k];
    }
    forall k | 0 <= k < |fr| ensures IsDigit(fr[k]) {
      assert fr[k] == f[d + 1 + k] && f[d] == DOT;
    }
  }

  // ---------------------------------------------------------------- where the order ends

  const ZERO: seq<byte> := [0x30]
  const LIMIT: seq<byte> := [0x32, 0x31, 0x34, 0x37, 0x34, 0x38, 0x33, DOT, 0x36, 0x34, 0x38]

  /** What 2147483.648 spells: the first number that does not fit, and it reads as the least of all. */
  lemma LimitIsLeast()
    ensures IsDecimal(LIMIT) && ExactMilli(LIMIT) == INT32_MAX + 1 && Wrap32(ExactMilli(LIMIT)) == -INT32_MAX - 1
    ensures 1000 * Numerator(LIMIT) == (INT32_MAX + 1) * Scale(LIMIT)
  {
    var i, fr := LIMIT[..7], LIMIT[8..];
    assert DotIndex(LIMIT) == 7 by {
      assert forall k :: 0 <= k < 7 ==> LIMIT[k] != DOT;
      assert LIMIT[7] == DOT;
    }
    assert IntegerDigits(LIMIT) == i && FractionDigits(LIMIT) == fr;
    SpellLimit(i, fr);
    HornerConcat(i, fr);
    Thousand();
    assert fr[..3] == fr && Head(fr) == fr;
  }

  lemma SpellLimit(i: seq<byte>, fr: seq<byte>)
    requires i == [0x32, 0x31, 0x34, 0x37, 0x34, 0x38, 0x33] && fr == [0x36, 0x34, 0x38]
    ensures Horner(i) == 2147483 && Horner(fr) == 648
  {
    HornerNext([], 0x32, i[..1]);
    HornerNext(i[..1], 0x31, i[..2]);
    HornerNext(i[..2], 0x34, i[..3]);
    HornerNext(i[..3], 0x37, i[..4]);
    HornerNext(i[..4], 0x34, i[..5]);
    HornerNext(i[..5], 0x38, i[..6]);
    HornerNext(i[..6], 0x33, i);
    HornerNext([], 0x36, fr[..1]);
    HornerNext(fr[..1], 0x34, fr[..2]);
    HornerNext(fr[..2], 0x38, fr);
  }

  lemma LimitCross(e: nat, n: nat, p: nat, ln: nat, lp: nat)
    requires p >= 1 && lp >= 1 && e * p <= 1000 * n && e > INT32_MAX && 1000 * ln == (INT32_MAX + 1) * lp
    ensures ln * p <= n * lp
  {
    MulLeft(INT32_MAX + 1, e, p);
    MulLeft((INT32_MAX + 1) * p, 1000 * n, lp);
    assert (INT32_MAX + 1) * p * lp == (1000 * ln) * p == 1000 * (ln * p);
    assert 1000 * n * lp == 1000 * (n * lp);
  }

  /** A number fits exactly if it is below 2147483.648. */
  lemma FitsBelowLimit(f: seq<byte>)
    ensures ExactMilli(f) <= INT32_MAX <==> !DecimalLeq(LIMIT, f)
  {
    LimitIsLeast();
    if ExactMilli(f) > INT32_MAX {
      MilliIsFloor(f);
      LimitCross(ExactMilli(f), Numerator(f), Scale(f), Numerator(LIMIT), Scale(LIMIT));
    } else if DecimalLeq(LIMIT, f) {
      MilliMonotone(LIMIT, f);
    }
  }

  /** Of two numbers no larger than f the one that is no larger parses to no more. */
  ghost predicate OrderKept(f: seq<byte>) {
    forall g, h :: IsDecimal(g) && IsDecimal(h) && DecimalLeq(g, h) && DecimalLeq(h, f) ==>
                     Wrap32(ExactMilli(g)) <= Wrap32(ExactMilli(h))
  }

  /** The order of the numbers up to f is kept if and only if f is below 2147483.648. */
  lemma OrderKeptExactly(f: seq<byte>)
    ensures OrderKept(f) <==> ExactMilli(f) <= INT32_MAX
    ensures OrderKept(f) <==> !DecimalLeq(LIMIT, f)
  {
    FitsBelowLimit(f);
    if ExactMilli(f) <= INT32_MAX {
      forall g, h | IsDecimal(g) && IsDecimal(h) && DecimalLeq(g, h) && DecimalLeq(h, f)
        ensures Wrap32(ExactMilli(g)) <= Wrap32(ExactMilli(h))
      {
        MilliMonotone(g, h);
        MilliMonotone(h, f);
      }
    } else {
      ZeroAndLimit();
    }
  }

  /** 0 and 2147483.648 are in order and parse out of order. */
  lemma ZeroAndLimit()
    ensures IsDecimal(ZERO) && IsDecimal(LIMIT) && DecimalLeq(ZERO, LIMIT)
    ensures Wrap32(ExactMilli(ZERO)) == 0 > Wrap32(ExactMilli(LIMIT))
  {
    Undotted(ZERO);
    HornerNext([], 0x30, ZERO);
    LimitIsLeast();
  }

  /** The parsed value is the exact one if and only if that fits the int. */
  lemma HdopExact(s: seq<byte>)
    requires Hdop(s).Some?
    ensures Hdop(s).value == ExactMilli(Field(s, 8).value) <==> ExactMilli(Field(s, 8).value) <= INT32_MAX
  {}
}
