/** What several parts share: 32-bit words, the answers of the HTTP server's receive call, sequences. */
module Basics {
  import opened Nmea

  const WORD := 0x1_0000_0000

  /** The value a 32-bit counter shows. */
  function Word(n: int): (w: nat)
    ensures w < 0x1_0000_0000 && (0 <= n < 0x1_0000_0000 ==> w == n)
  {
    n % WORD
  }

  function Min(a: int, b: int): int {
    if a < b then a else b
  }

  /** One answer of httpd_req_recv. No bytes and Gone are both the client's absence. */
  datatype Recv = Data(bytes: seq<byte>) | Timeout | Gone

  predicate Absent(answer: Recv) {
    answer == Gone || answer == Data([])
  }

  lemma Regroup<T>(a: seq<T>, b: seq<T>, c: seq<T>)
    ensures (a + b) + c == a + (b + c)
  {}

  lemma NothingBefore<T>(x: seq<T>)
    ensures [] + x == x
  {}
}
