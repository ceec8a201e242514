/** The NMEA sentence rule of main/gnss.c: "$" payload "*" two hexadecimal digits, then any
    carriage returns and line feeds, where the digits spell the XOR of the payload bytes.
    Also the encoder of the hardware test runner, which produces such sentences. */
module Nmea {
  type byte = x: int | 0 <= x < 256

  datatype Option<+T> = None | Some(value: T)

  const LF: byte := 0x0A
  const CR: byte := 0x0D
  const DOLLAR: byte := 0x24
  const STAR: byte := 0x2A
  const COMMA: byte := 0x2C
  const DOT: byte := 0x2E

  const MAX_SENTENCE_LEN := 128
  const PREFIX_LEN := 6
  const TYPE_OFFSET := 3

  predicate IsTerminator(b: byte) {
    b == CR || b == LF
  }

  /** The line without its trailing terminators. */
  function Trimmed(s: seq<byte>): (t: seq<byte>)
    ensures t <= s
    ensures forall i | |t| <= i < |s| :: IsTerminator(s[i])
    ensures t == [] || !IsTerminator(t[|t| - 1])
  {
    if s == [] || !IsTerminator(s[|s| - 1]) then s else Trimmed(s[..|s| - 1])
  }

  lemma {:induction false} TrimmedIs(s: seq<byte>, n: nat)
    requires n <= |s|
    requires forall i | n <= i < |s| :: IsTerminator(s[i])
    requires n == 0 || !IsTerminator(s[n - 1])
    ensures Trimmed(s) == s[..n]
  {}

  // ---------------------------------------------------------------- bits

  /** The four bits of a number below 16. */
  function Nibble(n: nat): (v: bv8)
    requires n < 16
    ensures v < 16
  {
    match n
    case 0 => 0
    case 1 => 1
    case 2 => 2
    case 3 => 3
    case 4 => 4
    case 5 => 5
    case 6 => 6
    case 7 => 7
    case 8 => 8
    case 9 => 9
    case 10 => 10
    case 11 => 11
    case 12 => 12
    case 13 => 13
    case 14 => 14
    case _ => 15
  }

  function JoinNibbles(high: bv8, low: bv8): bv8 {
    (high << 4) | low
  }

  /** The eight bits of a byte. */
  function Bits(b: byte): bv8 {
    JoinNibbles(Nibble(b / 16), Nibble(b % 16))
  }

  lemma BitsInjective(a: byte, b: byte)
    requires Bits(a) == Bits(b)
    ensures a == b
  {}

  /** The four bits a hexadecimal digit of either case stands for. */
  function HexValue(d: byte): (v: Option<bv8>)
    ensures v.Some? ==> v.value < 16
  {
    if 0x30 <= d <= 0x39 then Some(Nibble(d - 0x30))
    else if 0x41 <= d <= 0x46 then Some(Nibble(d - 0x41 + 10))
    else if 0x61 <= d <= 0x66 then Some(Nibble(d - 0x61 + 10))
    else None
  }

  function XorOf(s: seq<byte>): bv8 {
    if s == [] then 0 else XorOf(s[..|s| - 1]) ^ Bits(s[|s| - 1])
  }

  lemma {:induction false} XorOfUpdate(s: seq<byte>, i: nat, b: byte)
    requires i < |s|
    ensures XorOf(s[i := b]) == (XorOf(s) ^ Bits(s[i])) ^ Bits(b)
  {
    var n := |s| - 1;
    var s' := s[i := b];
    if i == n {
      assert s'[..n] == s[..n];
      XorCancel(XorOf(s[..n]), Bits(s[n]), Bits(b));
    } else {
      assert s'[..n] == s[..n][i := b];
      XorOfUpdate(s[..n], i, b);
      XorSwap(XorOf(s[..n]), Bits(s[i]), Bits(b), Bits(s[n]));
    }
  }

  lemma XorCancel(x: bv8, y: bv8, b: bv8)
    ensures x ^ b == ((x ^ y) ^ y) ^ b
  {}

  lemma XorSwap(x: bv8, y: bv8, b: bv8, z: bv8)
    ensures ((x ^ y) ^ b) ^ z == ((x ^ z) ^ y) ^ b
  {}

  lemma XorDiffers(x: bv8, y: bv8, b: bv8)
    requires y != b
    ensures (x ^ y) ^ b != x
  {}

  // ---------------------------------------------------------------- what the bits are

  function Power(k: nat): (p: nat)
    ensures p >= 1
  {
    if k == 0 then 1 else 2 * Power(k - 1)
  }

  /** Bit k of the number n. */
  predicate BitAt(n: nat, k: nat) {
    (n / Power(k)) % 2 == 1
  }

  /** How many of the bytes have bit k. */
  function HowMany(s: seq<byte>, k: nat): nat {
    if s == [] then 0 else HowMany(s[..|s| - 1], k) + if BitAt(s[|s| - 1], k) then 1 else 0
  }

  /** n is the bytes' exclusive or: each of its bits is set if an odd number of them have it. */
  ghost predicate IsXor(s: seq<byte>, n: nat) {
    n < 256 && forall k: nat :: k < 8 ==> (BitAt(n, k) <==> HowMany(s, k) % 2 == 1)
  }

  function Mask(k: nat): bv8
    requires k < 8
  {
    match k
    case 0 => 1
    case 1 => 2
    case 2 => 4
    case 3 => 8
    case 4 => 16
    case 5 => 32
    case 6 => 64
    case _ => 128
  }

  predicate Has(x: bv8, k: nat)
    requires k < 8
  {
    x & Mask(k) != 0
  }

  lemma Powers()
    ensures Power(0) == 1 && Power(1) == 2 && Power(2) == 4 && Power(3) == 8
    ensures Power(4) == 16 && Power(5) == 32 && Power(6) == 64 && Power(7) == 128
  {
    assert Power(2) == 2 * Power(1) && Power(3) == 2 * Power(2) && Power(4) == 2 * Power(3);
    assert Power(5) == 2 * Power(4) && Power(6) == 2 * Power(5) && Power(7) == 2 * Power(6);
  }

  lemma NibbleBits(n: nat, k: nat)
    requires n < 16 && k < 4
    ensures Has(Nibble(n), k) <==> BitAt(n, k)
  {
    Powers();
  }

  lemma JoinedBits(high: bv8, low: bv8, k: nat)
    requires high < 16 && low < 16 && k < 8
    ensures Has(JoinNibbles(high, low), k) <==> if k < 4 then Has(low, k) else Has(high, k - 4)
  {}

  lemma LowBits(q: nat, r: nat, k: nat)
    requires r < 16 && k < 4
    ensures BitAt(16 * q + r, k) <==> BitAt(r, k)
  {
    Powers();
    assert (16 * q + r) / 2 == 8 * q + r / 2;
    assert (16 * q + r) / 4 == 4 * q + r / 4;
    assert (16 * q + r) / 8 == 2 * q + r / 8;
  }

  lemma HighBits(q: nat, r: nat, k: nat)
    requires r < 16 && k < 4
    ensures BitAt(16 * q + r, k + 4) <==> BitAt(q, k)
  {
    Powers();
    assert (16 * q + r) / 16 == q;
    assert (16 * q + r) / 32 == q / 2;
    assert (16 * q + r) / 64 == q / 4;
    assert (16 * q + r) / 128 == q / 8;
  }

  lemma BitsExact(b: byte, k: nat)
    requires k < 8
    ensures Has(Bits(b), k) <==> BitAt(b, k)
  {
    JoinedBits(Nibble(b / 16), Nibble(b % 16), k);
    if k < 4 {
      NibbleBits(b % 16, k);
      LowBits(b / 16, b % 16, k);
    } else {
      NibbleBits(b / 16, k - 4);
      HighBits(b / 16, b % 16, k - 4);
    }
  }

  lemma XorMasked(x: bv8, y: bv8, m: bv8)
    ensures (x ^ y) & m == (x & m) ^ (y & m)
    ensures (x ^ y) & m != 0 <==> x & m != y & m
  {}

  lemma OneBit(x: bv8, k: nat)
    requires k < 8
    ensures x & Mask(k) == 0 || x & Mask(k) == Mask(k)
  {}

  lemma XorHas(x: bv8, y: bv8, k: nat)
    requires k < 8
    ensures Has(x ^ y, k) <==> Has(x, k) != Has(y, k)
  {
    XorMasked(x, y, Mask(k));
    OneBit(x, k);
    OneBit(y, k);
  }

  lemma NothingFolded(k: nat)
    requires k < 8
    ensures !Has(XorOf([]), k) && HowMany([], k) == 0
  {}

  lemma LastCounted(s: seq<byte>, k: nat)
    requires s != []
    ensures HowMany(s, k) % 2 == 1 <==> (HowMany(s[..|s| - 1], k) % 2 == 1) != BitAt(s[|s| - 1], k)
  {
    OneMore(HowMany(s[..|s| - 1], k), BitAt(s[|s| - 1], k));
  }

  lemma OneMore(n: nat, more: bool)
    ensures (n + if more then 1 else 0) % 2 == 1 <==> (n % 2 == 1) != more
  {}

  lemma LastFolded(s: seq<byte>, k: nat)
    requires s != [] && k < 8
    ensures Has(XorOf(s), k) <==> Has(XorOf(s[..|s| - 1]), k) != BitAt(s[|s| - 1], k)
  {
    BitsExact(s[|s| - 1], k);
    XorHas(XorOf(s[..|s| - 1]), Bits(s[|s| - 1]), k);
  }

  /** Bit k of the folded checksum is set if an odd number of the bytes have it. */
  lemma {:induction false} XorExact(s: seq<byte>, k: nat)
    requires k < 8
    ensures Has(XorOf(s), k) <==> HowMany(s, k) % 2 == 1
  {
    if s == [] {
      NothingFolded(k);
    } else {
      XorExact(s[..|s| - 1], k);
      LastFolded(s, k);
      LastCounted(s, k);
    }
  }

  lemma SameBits(x: bv8, y: bv8)
    requires forall k: nat :: k < 8 ==> (Has(x, k) <==> Has(y, k))
    ensures x == y
  {
    assert Has(x, 0) <==> Has(y, 0);
    assert Has(x, 1) <==> Has(y, 1);
    assert Has(x, 2) <==> Has(y, 2);
    assert Has(x, 3) <==> Has(y, 3);
    assert Has(x, 4) <==> Has(y, 4);
    assert Has(x, 5) <==> Has(y, 5);
    assert Has(x, 6) <==> Has(y, 6);
    assert Has(x, 7) <==> Has(y, 7);
    Masked(x, y);
  }

  lemma Masked(x: bv8, y: bv8)
    requires (x & 1 != 0 <==> y & 1 != 0) && (x & 2 != 0 <==> y & 2 != 0)
    requires (x & 4 != 0 <==> y & 4 != 0) && (x & 8 != 0 <==> y & 8 != 0)
    requires (x & 16 != 0 <==> y & 16 != 0) && (x & 32 != 0 <==> y & 32 != 0)
    requires (x & 64 != 0 <==> y & 64 != 0) && (x & 128 != 0 <==> y & 128 != 0)
    ensures x == y
  {}

  /** The byte whose bits the folded checksum has is the exclusive or. */
  lemma XorIs(s: seq<byte>, n: byte)
    ensures XorOf(s) == Bits(n) <==> IsXor(s, n)
  {
    forall k: nat | k < 8
      ensures (Has(XorOf(s), k) <==> HowMany(s, k) % 2 == 1) && (Has(Bits(n), k) <==> BitAt(n, k))
    {
      XorExact(s, k);
      BitsExact(n, k);
    }
    if IsXor(s, n) {
      SameBits(XorOf(s), Bits(n));
    }
  }

  // ---------------------------------------------------------------- the sentence rule

  const LOWER := "0123456789abcdef"
  const UPPER := "0123456789ABCDEF"

  /** The character with code d is the v-th hexadecimal digit, in lower or in upper case. */
  predicate IsDigitOf(d: byte, v: nat) {
    v < 16 && (d == LOWER[v] as int || d == UPPER[v] as int)
  }

  /** The line s is "$", a payload p of six bytes or more without "*", "*", two hexadecimal digits that spell
      16 v + w, the payload's exclusive or, and then carriage returns and line feeds alone. */
  ghost predicate Spells(s: seq<byte>, p: seq<byte>, h: byte, l: byte, v: nat, w: nat, tail: seq<byte>) {
    && s == ['$' as int] + p + ['*' as int, h, l] + tail
    && |p| >= 6 && ('*' as int) !in p && IsDigitOf(h, v) && IsDigitOf(l, w) && IsXor(p, 16 * v + w)
    && forall i :: 0 <= i < |tail| ==> tail[i] == '\r' as int || tail[i] == '\n' as int
  }

  ghost predicate IsSentence(s: seq<byte>) {
    exists p, h, l, v, w, tail :: Spells(s, p, h, l, v, w, tail)
  }

  /** The checksum field h l names the XOR of the payload. */
  predicate FieldMatches(payload: seq<byte>, h: byte, l: byte) {
    && HexValue(h).Some?
    && HexValue(l).Some?
    && XorOf(payload) == JoinNibbles(HexValue(h).value, HexValue(l).value)
  }

  /** The sentence rule, on the trimmed line t: "$" payload "*" h l, with at least six payload
      bytes, no "*" among them, and a checksum field that matches. */
  predicate ChecksumValid(s: seq<byte>) {
    LineValid(Trimmed(s))
  }

  predicate LineValid(t: seq<byte>) {
    && |t| >= 10
    && t[0] == DOLLAR
    && t[|t| - 3] == STAR
    && STAR !in t[1..|t| - 3]
    && FieldMatches(t[1..|t| - 3], t[|t| - 2], t[|t| - 1])
  }

  lemma DigitExact(d: byte, v: nat)
    requires v < 16
    ensures HexValue(d) == Some(Nibble(v)) <==> IsDigitOf(d, v)
  {
    if v < 10 {
      assert LOWER[v] == UPPER[v] == '0' + v as char;
    } else {
      assert LOWER[v] == 'a' + (v - 10) as char && UPPER[v] == 'A' + (v - 10) as char;
    }
  }

  lemma DigitPlace(d: byte) returns (v: nat)
    requires HexValue(d).Some?
    ensures v < 16 && HexValue(d) == Some(Nibble(v))
  {
    v := if d <= 0x39 then d - 0x30 else if d <= 0x46 then d - 0x41 + 10 else d - 0x61 + 10;
  }

  /** The digits' number, written as bits. */
  lemma SpelledBits(v: nat, w: nat)
    requires v < 16 && w < 16
    ensures Bits(16 * v + w) == JoinNibbles(Nibble(v), Nibble(w))
  {
    assert (16 * v + w) / 16 == v && (16 * v + w) % 16 == w;
  }

  lemma FieldSpells(p: seq<byte>, h: byte, l: byte, v: nat, w: nat)
    requires v < 16 && w < 16 && HexValue(h) == Some(Nibble(v)) && HexValue(l) == Some(Nibble(w))
    ensures FieldMatches(p, h, l) <==> IsXor(p, 16 * v + w)
  {
    SpelledBits(v, w);
    XorIs(p, 16 * v + w);
  }

  /** The test accepts exactly such lines. */
  lemma ChecksumExact(s: seq<byte>)
    ensures ChecksumValid(s) <==> IsSentence(s)
  {
    if ChecksumValid(s) {
      ValidIsSentence(s);
    }
    forall p, h, l, v, w, tail | Spells(s, p, h, l, v, w, tail) ensures ChecksumValid(s) {
      SentenceIsValid(s, p, h, l, v, w, tail);
    }
  }

  lemma ValidIsSentence(s: seq<byte>)
    requires ChecksumValid(s)
    ensures IsSentence(s)
  {
    var t := Trimmed(s);
    var n := |t|;
    var p, h, l, tail := t[1..n - 3], t[n - 2], t[n - 1], s[n..];
    var v := DigitPlace(h);
    var w := DigitPlace(l);
    DigitExact(h, v);
    DigitExact(l, w);
    FieldSpells(p, h, l, v, w);
    assert t == [t[0]] + p + [t[n - 3], h, l] && s == t + tail;
    assert Spells(s, p, h, l, v, w, tail);
  }

  lemma SentenceIsValid(s: seq<byte>, p: seq<byte>, h: byte, l: byte, v: nat, w: nat, tail: seq<byte>)
    requires Spells(s, p, h, l, v, w, tail)
    ensures ChecksumValid(s)
  {
    var t := ['$' as int] + p + ['*' as int, h, l];
    DigitExact(h, v);
    DigitExact(l, w);
    FieldSpells(p, h, l, v, w);
    TrimmedIs(s, |t|);
    assert s[..|t|] == t && t[1..|t| - 3] == p;
  }

  /** The trimming loop both sentence tests start with. */
  method TrimmedLength(sentence: array<byte>, size: nat) returns (len: nat)
    requires size <= sentence.Length
    ensures len <= size && sentence[..len] == Trimmed(sentence[..size])
  {
    len := size;
    while len > 0 && IsTerminator(sentence[len - 1])
      invariant len <= size
      invariant forall i | len <= i < size :: IsTerminator(sentence[i])
    {
      len := len - 1;
    }
    TrimmedIs(sentence[..size], len);
    assert sentence[..size][..len] == sentence[..len];
  }

  /** memchr: the first b in a[from..len], or len when there is none. */
  method IndexOf(a: array<byte>, from: nat, len: nat, b: byte) returns (i: nat)
    requires from <= len <= a.Length
    ensures from <= i <= len
    ensures b !in a[from..i]
    ensures i < len ==> a[i] == b
  {
    i := from;
    while i < len && a[i] != b
      invariant from <= i <= len
      invariant b !in a[from..i]
    {
      i := i + 1;
    }
  }

  /** The checksum test, as coded: trim, find the first "*", read two digits, fold the XOR. */
  method ChecksumOk(sentence: array<byte>, size: nat) returns (ok: bool)
    requires size <= sentence.Length
    ensures ok <==> ChecksumValid(sentence[..size])
    ensures ok <==> IsSentence(sentence[..size])
  {
    ChecksumExact(sentence[..size]);
    var len := TrimmedLength(sentence, size);
    ghost var t := sentence[..len];
    if len < 10 || sentence[0] != DOLLAR {
      return false;
    }
    var star := IndexOf(sentence, 1, len, STAR);
    if star == len || len - star != 3 {
      assert star < len - 3 ==> t[1..len - 3][star - 1] == STAR;
      assert len - 3 < star ==> sentence[1..star][len - 4] == t[len - 3];
      return false;
    }
    SubSlice(sentence, len, 1, star);
    var high := HexValue(sentence[star + 1]);
    var low := HexValue(sentence[star + 2]);
    if high.None? || low.None? {
      return false;
    }
    var checksum := FoldXor(sentence, 1, star);
    return checksum == JoinNibbles(high.value, low.value);
  }

  lemma SubSlice(a: array<byte>, len: nat, lo: nat, hi: nat)
    requires lo <= hi <= len <= a.Length
    ensures a[..len][lo..hi] == a[lo..hi]
  {
    forall k | 0 <= k < hi - lo ensures a[..len][lo..hi][k] == a[lo..hi][k] {}
  }

  method FoldXor(a: array<byte>, from: nat, to: nat) returns (checksum: bv8)
    requires from <= to <= a.Length
    ensures checksum == XorOf(a[from..to])
  {
    checksum := 0;
    for p := from to to
      invariant checksum == XorOf(a[from..p])
    {
      assert a[from..p + 1][..p - from] == a[from..p];
      checksum := checksum ^ Bits(a[p]);
    }
  }

  /** Which one-byte changes of a valid sentence go unnoticed, exactly: a terminator turned into
      the other terminator, or a checksum digit rewritten in the other letter case. */
  lemma SingleByteChange(s: seq<byte>, i: nat, b: byte)
    requires ChecksumValid(s) && i < |s| && b != s[i]
    ensures var n := |Trimmed(s)|;
            ChecksumValid(s[i := b]) <==>
              || (n <= i && IsTerminator(b))
              || (n - 2 <= i < n && HexValue(b) == HexValue(s[i]))
  {
    var t, n, s' := Trimmed(s), |Trimmed(s)|, s[i := b];
    if n <= i {
      TerminatorChange(s, i, b);
    } else if i == n - 1 && IsTerminator(b) {
      TrimmedIs(s', n - 1);
      assert t[1..n - 3][n - 5] == t[n - 4];
    } else {
      TrimmedIs(s', n);
      assert s'[..n] == t[i := b];
      InteriorChange(t, i, b);
    }
  }

  lemma TerminatorChange(s: seq<byte>, i: nat, b: byte)
    requires ChecksumValid(s) && |Trimmed(s)| <= i < |s|
    ensures ChecksumValid(s[i := b]) <==> IsTerminator(b)
  {
    if IsTerminator(b) {
      TrimmedIs(s[i := b], |Trimmed(s)|);
      assert s[i := b][..|Trimmed(s)|] == Trimmed(s);
    } else {
      LongerLine(s, i, b);
    }
  }

  lemma LongerLine(s: seq<byte>, i: nat, b: byte)
    requires ChecksumValid(s) && |Trimmed(s)| <= i < |s| && !IsTerminator(b)
    ensures !ChecksumValid(s[i := b])
  {
    TrimmedIs(s[i := b], i + 1);
    NoStarThere(s, i);
    assert Trimmed(s[i := b])[i - 2] == s[i - 2];
  }

  /** Two places before or behind the end of a valid line there is a digit or a terminator. */
  lemma NoStarThere(s: seq<byte>, i: nat)
    requires ChecksumValid(s) && |Trimmed(s)| <= i < |s|
    ensures i >= 2 && s[i - 2] != STAR
  {
    var t, n := Trimmed(s), |Trimmed(s)|;
    if i < n + 2 {
      assert s[i - 2] == t[i - 2] && HexValue(t[i - 2]).Some?;
    } else {
      assert IsTerminator(s[i - 2]);
    }
  }

  lemma InteriorChange(t: seq<byte>, i: nat, b: byte)
    requires LineValid(t) && i < |t| && b != t[i]
    ensures LineValid(t[i := b]) <==> |t| - 2 <= i && HexValue(b) == HexValue(t[i])
  {
    var n, t' := |t|, t[i := b];
    var p := t[1..n - 3];
    if 1 <= i < n - 3 {
      assert t'[1..n - 3] == p[i - 1 := b];
      PayloadChange(p, t[n - 2], t[n - 1], i - 1, b);
    } else {
      assert t'[1..n - 3] == p;
      DigitChange(p, t[n - 2], t[n - 1], b);
    }
  }

  lemma PayloadChange(p: seq<byte>, h: byte, l: byte, i: nat, b: byte)
    requires FieldMatches(p, h, l) && i < |p| && b != p[i]
    ensures !FieldMatches(p[i := b], h, l)
  {
    XorOfUpdate(p, i, b);
    if Bits(p[i]) == Bits(b) { BitsInjective(p[i], b); }
    XorDiffers(XorOf(p), Bits(p[i]), Bits(b));
  }

  lemma DigitChange(p: seq<byte>, h: byte, l: byte, b: byte)
    requires FieldMatches(p, h, l)
    ensures FieldMatches(p, b, l) <==> HexValue(b) == HexValue(h)
    ensures FieldMatches(p, h, b) <==> HexValue(b) == HexValue(l)
  {}

  // ---------------------------------------------------------------- encoder

  /** One upper-case hexadecimal digit, as "%X" prints it. */
  function HexDigit(v: bv8): (d: byte)
    requires v < 16
    ensures HexValue(d) == Some(v)
    ensures !IsTerminator(d) && d != STAR && d != DOLLAR && d < 128
  {
    match v
    case 0 => 0x30
    case 1 => 0x31
    case 2 => 0x32
    case 3 => 0x33
    case 4 => 0x34
    case 5 => 0x35
    case 6 => 0x36
    case 7 => 0x37
    case 8 => 0x38
    case 9 => 0x39
    case 10 => 0x41
    case 11 => 0x42
    case 12 => 0x43
    case 13 => 0x44
    case 14 => 0x45
    case _ => 0x46
  }

  predicate IsAscii(s: seq<byte>) {
    forall i | 0 <= i < |s| :: s[i] < 128
  }

  function Encoded(payload: seq<byte>): (s: seq<byte>)
    ensures |s| == |payload| + 6
  {
    var x := XorOf(payload);
    SplitNibbles(x);
    [DOLLAR] + payload + [STAR, HexDigit(x >> 4), HexDigit(x & 15), CR, LF]
  }

  lemma SplitNibbles(x: bv8)
    ensures x >> 4 < 16 && x & 15 < 16 && JoinNibbles(x >> 4, x & 15) == x
  {}

  lemma DigitIsUpper(v: nat)
    requires v < 16
    ensures HexDigit(Nibble(v)) == UPPER[v] as int
  {}

  lemma NibbleNumber(x: bv8) returns (v: nat)
    requires x < 16
    ensures v < 16 && Nibble(v) == x
  {
    v := if x < 8 then (if x < 4 then (if x < 2 then (if x < 1 then 0 else 1) else if x < 3 then 2 else 3)
                        else if x < 6 then (if x < 5 then 4 else 5) else if x < 7 then 6 else 7)
         else if x < 12 then (if x < 10 then (if x < 9 then 8 else 9) else if x < 11 then 10 else 11)
         else if x < 14 then (if x < 13 then 12 else 13) else if x < 15 then 14 else 15;
  }

  /** The encoder writes "$", the payload, "*", the exclusive or as two upper-case digits, and CR LF. */
  lemma EncodedExact(payload: seq<byte>) returns (v: nat, w: nat)
    ensures v < 16 && w < 16 && IsXor(payload, 16 * v + w)
    ensures Encoded(payload) ==
            ['$' as int] + payload + ['*' as int, UPPER[v] as int, UPPER[w] as int, '\r' as int, '\n' as int]
  {
    var x := XorOf(payload);
    SplitNibbles(x);
    v := NibbleNumber(x >> 4);
    w := NibbleNumber(x & 15);
    SpelledBits(v, w);
    XorIs(payload, 16 * v + w);
    DigitIsUpper(v);
    DigitIsUpper(w);
  }

  /** The runner's encoder; a payload that is not ASCII raises there, hence None. */
  method EncodeSentence(payload: seq<byte>) returns (r: Option<seq<byte>>)
    ensures r.Some? <==> forall i :: 0 <= i < |payload| ==> payload[i] < 128
    ensures r.Some? ==> r.value == Encoded(payload)
  {
    var checksum: bv8 := 0;
    var i := 0;
    while i < |payload|
      invariant 0 <= i <= |payload|
      invariant checksum == XorOf(payload[..i])
      invariant IsAscii(payload[..i])
    {
      if payload[i] >= 128 {
        return None;
      }
      assert payload[..i + 1][..i] == payload[..i];
      checksum := checksum ^ Bits(payload[i]);
      i := i + 1;
    }
    assert payload[..i] == payload;
    SplitNibbles(checksum);
    return Some([DOLLAR] + payload + [STAR, HexDigit(checksum >> 4), HexDigit(checksum & 15), CR, LF]);
  }

  /** The encoder's output passes the firmware's test exactly when the payload has six bytes or
      more and holds no "*". */
  lemma EncodedIsValid(payload: seq<byte>)
    ensures ChecksumValid(Encoded(payload)) <==> |payload| >= 6 && STAR !in payload
  {
    var s, n, x := Encoded(payload), |payload| + 4, XorOf(payload);
    SplitNibbles(x);
    TrimmedIs(s, n);
    var t := s[..n];
    assert t[n - 3] == STAR && t[n - 2] == HexDigit(x >> 4) && t[n - 1] == HexDigit(x & 15);
    assert t[1..n - 3] == payload;
  }
}
