/** The GGA/RMC pairing of main/gnss.c, on the kinds of the completed lines. */
module Pairing {
  import opened Nmea

  /** What a completed line is to the pairing: a valid GGA whose HDOP parses, a valid RMC, or neither. */
  datatype Kind = Gga(hdop: int) | Rmc | Other

  /** The index of the GGA waiting for its RMC after the lines ks. */
  function Pending(ks: seq<Kind>): (p: Option<nat>)
    ensures p.Some? ==> p.value < |ks| && ks[p.value].Gga?
  {
    if ks == [] then None
    else match ks[|ks| - 1]
      case Gga(_) => Some(|ks| - 1)
      case Rmc => None
      case Other => Pending(ks[..|ks| - 1])
  }

  datatype Match = Match(gga: nat, rmc: nat)

  /** The joins made over the lines ks, in order. */
  function Matches(ks: seq<Kind>): (r: seq<Match>)
    ensures forall k | 0 <= k < |r| :: r[k].gga < r[k].rmc < |ks| && ks[r[k].gga].Gga?
  {
    if ks == [] then []
    else
      var p := ks[..|ks| - 1];
      Matches(p) + (if ks[|ks| - 1].Rmc? && Pending(p).Some? then [Match(Pending(p).value, |p|)] else [])
  }

  ghost predicate Idle(ks: seq<Kind>, lo: int, hi: int)
    requires 0 <= lo && hi <= |ks|
  {
    forall k :: lo <= k < hi ==> ks[k].Other?
  }

  lemma {:induction false} PendingExact(ks: seq<Kind>, g: nat)
    requires g < |ks|
    ensures Pending(ks) == Some(g) <==> ks[g].Gga? && Idle(ks, g + 1, |ks|)
  {
    var n := |ks| - 1;
    if g < n {
      PendingExact(ks[..n], g);
    }
  }

  /** An RMC is joined to a GGA exactly when nothing but other lines stands between them. */
  lemma {:induction false} MatchesExact(ks: seq<Kind>, g: nat, r: nat)
    ensures Match(g, r) in Matches(ks) <==> g < r < |ks| && ks[g].Gga? && ks[r].Rmc? && Idle(ks, g + 1, r)
  {
    if ks == [] {
    } else {
      var n := |ks| - 1;
      MatchesExact(ks[..n], g, r);
      if g < n {
        PendingExact(ks[..n], g);
      }
    }
  }

  /** Every GGA and every RMC is used once, and a match is over before the next one starts. */
  lemma {:induction false} MatchesInOrder(ks: seq<Kind>, j: nat, k: nat)
    requires j < k < |Matches(ks)|
    ensures Matches(ks)[j].rmc < Matches(ks)[k].gga
  {
    var p := ks[..|ks| - 1];
    if k < |Matches(p)| {
      MatchesInOrder(p, j, k);
    } else {
      var m, g := Matches(p)[j], Pending(p).value;
      assert m in Matches(p);
      MatchesExact(p, m.gga, m.rmc);
      PendingExact(p, g);
    }
  }
}
