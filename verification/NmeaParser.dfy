/** The two byte-fed state machines of main/gnss.c over their 128-byte buffers: the pairing parser and
    the baud-rate probe. `fed` is the bytes since the last reset; every field is a function of it. */
module NmeaParser {
  import opened Nmea
  import opened NmeaFields
  import opened Pairing
  import opened Framing

  class Parser {
    var inSentence: bool
    var sentenceLen: nat
    const sentence: array<byte>
    var hasPendingGga: bool
    var pendingGgaLen: nat
    const pendingGga: array<byte>
    var pendingGgaHdop: int
    ghost var fed: seq<byte>

    ghost predicate Buffers()
      reads this
    {
      sentence.Length == pendingGga.Length == MAX_SENTENCE_LEN && sentence != pendingGga
      && sentenceLen <= MAX_SENTENCE_LEN && pendingGgaLen <= MAX_SENTENCE_LEN
    }

    /** The buffers' content. */
    ghost function View(): Memory
      requires Buffers()
      reads this, sentence, pendingGga
    {
      Memory(if inSentence then Some(sentence[..sentenceLen]) else None,
             if hasPendingGga then Some((pendingGga[..pendingGgaLen], pendingGgaHdop)) else None)
    }

    ghost predicate Valid()
      reads this, sentence, pendingGga
    {
      Buffers() && View() == MemoryAfter(fed)
    }

    constructor ()
      ensures Valid() && fed == [] && fresh(sentence) && fresh(pendingGga)
    {
      sentence, pendingGga := new byte[MAX_SENTENCE_LEN](_ => 0), new byte[MAX_SENTENCE_LEN](_ => 0);
      inSentence, sentenceLen := false, 0;
      hasPendingGga, pendingGgaLen, pendingGgaHdop := false, 0, 0;
      fed := [];
      NothingFed();
    }

    /** memset of the whole state. */
    method Reset()
      requires Valid()
      modifies this, sentence, pendingGga
      ensures Valid() && fed == []
    {
      forall i | 0 <= i < sentence.Length { sentence[i] := 0; }
      forall i | 0 <= i < pendingGga.Length { pendingGga[i] := 0; }
      inSentence, sentenceLen := false, 0;
      hasPendingGga, pendingGgaLen, pendingGgaHdop := false, 0, 0;
      fed := [];
      NothingFed();
    }

    /** Copies the line over the GGA that waits. */
    method KeepGga(hdop: int)
      requires Buffers()
      modifies this`hasPendingGga, this`pendingGgaLen, this`pendingGgaHdop, pendingGga
      ensures Buffers() && hasPendingGga && View().waiting == Some((sentence[..sentenceLen], hdop))
    {
      forall i | 0 <= i < sentenceLen { pendingGga[i] := sentence[i]; }
      assert pendingGga[..sentenceLen] == sentence[..sentenceLen];
      pendingGgaLen := sentenceLen;
      pendingGgaHdop := hdop;
      hasPendingGga := true;
    }

    /** Judges the line in the buffer: keeps a GGA, joins an RMC, ignores the rest. */
    method CompleteSentence() returns (out: seq<Pair>)
      requires Buffers() && inSentence
      modifies this`hasPendingGga, this`pendingGgaLen, this`pendingGgaHdop, pendingGga
      ensures Buffers()
      ensures var s := old(sentence[..sentenceLen]);
              (View().waiting, out) == Judge(old(View().waiting), s)
    {
      ghost var s := sentence[..sentenceLen];
      out := [];
      var kind := LineKind(sentence, sentenceLen);
      match kind {
        case Gga(hdop) => KeepGga(hdop);
        case Rmc =>
          if hasPendingGga {
            out := [Pair(pendingGga[..pendingGgaLen], sentence[..sentenceLen], pendingGgaHdop)];
            hasPendingGga := false;
            pendingGgaLen := 0;
          }
        case Other =>
      }
    }

    method FeedByte(b: byte) returns (out: seq<Pair>)
      requires Buffers()
      modifies this`inSentence, this`sentenceLen, this`hasPendingGga, this`pendingGgaLen, this`pendingGgaHdop
      modifies sentence, pendingGga
      ensures Buffers()
      ensures (View(), out) == Absorb(old(View()), b)
    {
      out := [];
      if b == DOLLAR {
        sentence[0] := b;
        sentenceLen := 1;
        inSentence := true;
        assert sentence[..sentenceLen] == [b];
        return;
      }
      if !inSentence {
        return;
      }
      if sentenceLen >= MAX_SENTENCE_LEN {
        inSentence := false;
        sentenceLen := 0;
        return;
      }
      sentence[sentenceLen] := b;
      sentenceLen := sentenceLen + 1;
      assert sentence[..sentenceLen] == old(sentence[..sentenceLen]) + [b];
      if b == LF {
        out := CompleteSentence();
        inSentence := false;
        sentenceLen := 0;
      }
    }

    /** The feed loop: whatever the split, the state is that of all bytes fed and the candidates
        handed on are the new ones among those of all bytes fed. */
    method Feed(data: seq<byte>) returns (out: seq<Pair>)
      requires Valid()
      modifies this, sentence, pendingGga
      ensures Valid() && fed == old(fed) + data
      ensures Emitted(fed) == Emitted(old(fed)) + out
    {
      out := [];
      for index := 0 to |data|
        invariant Buffers() && fed == old(fed)
        invariant (View(), out) == AbsorbAll(old(View()), data[..index])
      {
        assert data[..index + 1][..index] == data[..index];
        var more := FeedByte(data[index]);
        out := out + more;
      }
      assert data[..|data|] == data;
      FeedExact(fed, data, fed + data);
      fed := fed + data;
    }
  }

  /** The checks nmea_parser_complete_sentence makes on the line, in its order. */
  method LineKind(sentence: array<byte>, len: nat) returns (kind: Kind)
    requires sentence.Length == MAX_SENTENCE_LEN && len <= sentence.Length
    ensures kind == Classify(sentence[..len])
  {
    var ok := ChecksumOk(sentence, len);
    if !ok {
      return Other;
    }
    var hdop := ParseHdopMilli(sentence, len);
    if hdop.Some? {
      return Gga(hdop.value);
    }
    if len < PREFIX_LEN {
      return Other;
    }
    var rmc := TypeIs(sentence, RMC);
    assert sentence[..len][TYPE_OFFSET..TYPE_OFFSET + 3] == sentence[TYPE_OFFSET..TYPE_OFFSET + 3];
    return if rmc then Rmc else Other;
  }

  class Probe {
    var inSentence: bool
    var sentenceLen: nat
    const sentence: array<byte>
    ghost var fed: seq<byte>

    ghost predicate Buffers()
      reads this
    {
      sentence.Length == MAX_SENTENCE_LEN && sentenceLen <= MAX_SENTENCE_LEN
    }

    ghost function View(): Option<seq<byte>>
      requires Buffers()
      reads this, sentence
    {
      if inSentence then Some(sentence[..sentenceLen]) else None
    }

    ghost predicate Valid()
      reads this, sentence
    {
      Buffers() && View() == Assembling(fed)
    }

    constructor ()
      ensures Valid() && fed == [] && fresh(sentence)
    {
      sentence := new byte[MAX_SENTENCE_LEN](_ => 0);
      inSentence, sentenceLen, fed := false, 0, [];
    }

    method LineLooksValid() returns (ok: bool)
      requires Buffers()
      ensures ok <==> LooksValid(sentence[..sentenceLen])
    {
      if sentenceLen < PREFIX_LEN || sentence[0] != DOLLAR {
        return false;
      }
      assert sentence[..sentenceLen][TYPE_OFFSET..TYPE_OFFSET + 3] == sentence[TYPE_OFFSET..TYPE_OFFSET + 3];
      ok := TypeIs(sentence, GGA);
      if !ok { ok := TypeIs(sentence, RMC); }
      if !ok { ok := TypeIs(sentence, GLL); }
      if !ok { ok := TypeIs(sentence, VTG); }
      if !ok { ok := TypeIs(sentence, GSA); }
      if !ok { ok := TypeIs(sentence, GSV); }
    }

    method FeedByte(b: byte) returns (valid: bool)
      requires Buffers()
      modifies this`inSentence, this`sentenceLen, sentence
      ensures Buffers()
      ensures var (line, done) := Frame(old(View()), b);
              View() == line && (valid <==> done.Some? && Convincing(done.value))
    {
      valid := false;
      if b == DOLLAR {
        sentence[0] := b;
        sentenceLen := 1;
        inSentence := true;
        assert sentence[..sentenceLen] == [b];
        return;
      }
      if !inSentence {
        return;
      }
      if sentenceLen >= MAX_SENTENCE_LEN {
        inSentence := false;
        sentenceLen := 0;
        return;
      }
      sentence[sentenceLen] := b;
      sentenceLen := sentenceLen + 1;
      assert sentence[..sentenceLen] == old(sentence[..sentenceLen]) + [b];
      if b == LF {
        valid := LineLooksValid();
        if valid {
          valid := ChecksumOk(sentence, sentenceLen);
        }
        inSentence := false;
        sentenceLen := 0;
      }
    }

    /** FeedByte, with the bytes fed on record. */
    method Take(b: byte) returns (valid: bool)
      requires Valid()
      modifies this, sentence
      ensures Valid() && fed == old(fed) + [b]
      ensures valid <==> Hit(fed)
    {
      ghost var next := fed + [b];
      assert next[..|next| - 1] == fed;
      HitExact(next);
      valid := FeedByte(b);
      fed := next;
    }

    /** The byte at place k of the stream, of which none so far has been convincing. */
    method TakeAt(b: byte, ghost all: seq<byte>, ghost n: nat, ghost k: nat) returns (valid: bool)
      requires Valid() && n <= k < |all| && fed == all[..k] && all[k] == b && NoHit(all, n, k)
      modifies this, sentence
      ensures Valid() && fed == all[..k + 1]
      ensures if valid then Hit(fed) else NoHit(all, n, k + 1)
    {
      assert all[..k + 1] == all[..k] + [b];
      valid := Take(b);
      if !valid {
        NoHitNext(all, n, k);
      }
    }

    /** Stops at the first byte that completes a convincing sentence and drops the rest of the chunk. */
    method Feed(data: seq<byte>) returns (found: bool)
      requires Valid()
      modifies this, sentence
      ensures Valid()
      ensures var all, n := old(fed) + data, |old(fed)|;
              if found
              then n < |fed| <= |all| && fed == all[..|fed|] && Hit(fed) && NoHit(all, n, |fed| - 1)
              else fed == all && NoHit(all, n, |all|)
    {
      ghost var all, n := fed + data, |fed|;
      assert all[..n] == fed;
      for index := 0 to |data|
        invariant Valid() && fed == all[..n + index] && NoHit(all, n, n + index)
      {
        var valid := TakeAt(data[index], all, n, n + index);
        if valid {
          return true;
        }
      }
      assert all[..|all|] == all;
      return false;
    }
  }

  function Joined(chunks: seq<seq<byte>>): seq<byte> {
    if chunks == [] then [] else Joined(chunks[..|chunks| - 1]) + chunks[|chunks| - 1]
  }

  /** The scan at one baud rate, over the chunks the driver happens to deliver: the verdict is that
      of the joined stream, whatever the chunking. */
  method ScanChunks(chunks: seq<seq<byte>>) returns (locked: bool)
    ensures locked <==> Detects(Joined(chunks))
  {
    var probe := new Probe();
    for index := 0 to |chunks|
      invariant probe.Valid() && fresh(probe) && fresh(probe.sentence)
      invariant probe.fed == Joined(chunks[..index])
      invariant NoHit(probe.fed, 0, |probe.fed|)
    {
      ghost var before := probe.fed;
      locked := probe.Feed(chunks[index]);
      ghost var all := before + chunks[index];
      assert chunks[..index + 1][..index] == chunks[..index];
      if locked {
        DetectionStays(chunks, index + 1, |probe.fed|);
        return;
      }
      NoHitJoins(before, all);
    }
    assert chunks[..|chunks|] == chunks;
    NoHitAtAll(probe.fed);
    return false;
  }

  lemma NoHitJoins(a: seq<byte>, all: seq<byte>)
    requires a <= all && NoHit(a, 0, |a|) && NoHit(all, |a|, |all|)
    ensures NoHit(all, 0, |all|)
  {
    forall n: nat | 0 < n <= |all| ensures !Hit(all[..n]) {
      if n <= |a| { assert all[..n] == a[..n]; }
    }
  }

  lemma NoHitAtAll(t: seq<byte>)
    requires NoHit(t, 0, |t|)
    ensures !Detects(t)
  {}

  lemma {:induction false} DetectionStays(chunks: seq<seq<byte>>, k: nat, n: nat)
    requires k <= |chunks| && n <= |Joined(chunks[..k])| && Hit(Joined(chunks[..k])[..n])
    ensures Detects(Joined(chunks))
    decreases |chunks| - k
  {
    if k == |chunks| {
      assert chunks[..k] == chunks;
    } else {
      assert chunks[..k + 1][..k] == chunks[..k];
      assert Joined(chunks[..k + 1])[..n] == Joined(chunks[..k])[..n];
      DetectionStays(chunks, k + 1, n);
    }
  }
}
