/** Round-robin choice of a connection server, logic/service/comitService.go. */
module ComitService {
  import opened Division
  import opened Words

  const WRAP := 0x1_0000_0000

  class ComitManages {
    var tcpserver: seq<string>
    var index: uint32

    constructor ()
      ensures tcpserver == [] && index == 0
    {
      tcpserver, index := [], 0;
    }

    method AddTcpServer(ip: string)
      modifies this`tcpserver
      ensures tcpserver == old(tcpserver) + [ip]
    {
      tcpserver := tcpserver + [ip];
    }

    /** The list length is taken as a uint32; an empty list is a division by zero. */
    method NextTcpServer() returns (ip: string)
      requires 0 < |tcpserver| < WRAP
      modifies this`index
      ensures index as int == (old(index) as int + 1) % WRAP
      ensures ip == tcpserver[Position(old(index) as int, 1, |tcpserver|)]
      ensures ip == tcpserver[(old(index) as int + 1) % 0x1_0000_0000 % |tcpserver|]
    {
      index := ((index as int + 1) % WRAP) as uint32;
      ip := tcpserver[index as int % |tcpserver|];
    }

    /** Only the first entry equal to `ip` goes; the others keep their order. */
    method DeleteTcpServer(ip: string)
      modifies this`tcpserver
      ensures ip !in old(tcpserver) ==> tcpserver == old(tcpserver)
      ensures ip in old(tcpserver) ==>
                (exists k :: 0 <= k < |old(tcpserver)| && old(tcpserver)[k] == ip && ip !in old(tcpserver)[..k]
                             && tcpserver == old(tcpserver)[..k] + old(tcpserver)[k + 1..])
    {
      var k := 0;
      while k < |tcpserver|
        invariant k <= |tcpserver| && tcpserver == old(tcpserver) && ip !in tcpserver[..k]
      {
        if tcpserver[k] == ip {
          tcpserver := tcpserver[..k] + tcpserver[k + 1..];
          return;
        }
        k := k + 1;
      }
    }
  }

  /** The position chosen by the `j`-th of a row of calls, the counter having stood at `start`. */
  function Position(start: nat, j: nat, size: nat): (p: nat)
    requires size > 0
    ensures p < size
  {
    (start + j) % WRAP % size
  }

  /** A call after `j` calls chooses what the `j+1`-st of the row chooses. */
  lemma CallsChain(start: nat, j: nat, size: nat)
    requires size > 0
    ensures Position((start + j) % WRAP, 1, size) == Position(start, j + 1, size)
  {
  }

  /** How often the first `n` calls choose position `p`. */
  function Hits(start: nat, n: nat, size: nat, p: nat): nat
    requires size > 0
  {
    if n == 0 then 0 else Hits(start, n - 1, size, p) + if Position(start, n, size) == p then 1 else 0
  }

  lemma DivShift(x: int, k: nat, size: nat)
    requires size > 0
    ensures (x + k * size) / size == x / size + k
  {
    var q, r := x / size, x % size;
    assert (q + k) * size == q * size + k * size;
    DivUnique(x + k * size, size, q + k, r);
  }

  /** Counting multiples: the quotient goes up exactly at them. */
  lemma DivStep(x: int, size: nat, p: nat)
    requires p < size
    ensures (x - p) / size - (x - 1 - p) / size == if x % size == p then 1 else 0
  {
    var q, r := x / size, x % size;
    if r >= p {
      DivUnique(x - p, size, q, r - p);
    } else {
      DivUnique(x - p, size, q - 1, size + r - p);
    }
    if r >= p + 1 {
      DivUnique(x - 1 - p, size, q, r - 1 - p);
    } else {
      DivUnique(x - 1 - p, size, q - 1, size + r - 1 - p);
    }
  }

  /** Taking the wrapped counter modulo the list length is harmless below the wrap, and
      everywhere if the length divides 2^32. */
  predicate Harmless(start: nat, n: nat, size: nat)
    requires size > 0
  {
    start + n < WRAP || WRAP % size == 0
  }

  lemma PositionIsPlain(start: nat, j: nat, size: nat)
    requires size > 0 && Harmless(start, j, size)
    ensures Position(start, j, size) == (start + j) % size
  {
    var x := start + j;
    if WRAP % size == 0 {
      var a, b, w := x / WRAP, x % WRAP, WRAP / size;
      assert x == a * WRAP + b && WRAP == w * size;
      assert a * (w * size) == (a * w) * size;
      DivUnique(x, size, a * w + b / size, b % size) by {
        assert (a * w + b / size) * size == (a * w) * size + (b / size) * size;
      }
    }
  }

  lemma HitStep(start: nat, n: nat, size: nat, p: nat)
    requires n > 0 && p < size && Harmless(start, n, size)
    ensures (start + n - p) / size - (start + n - 1 - p) / size == if Position(start, n, size) == p then 1 else 0
  {
    PositionIsPlain(start, n, size);
    DivStep(start + n, size, p);
  }

  lemma {:induction false} HitsClosedForm(start: nat, n: nat, size: nat, p: nat)
    requires p < size && Harmless(start, n, size)
    ensures Hits(start, n, size, p) == (start + n - p) / size - (start - p) / size
  {
    if n > 0 {
      HitsClosedForm(start, n - 1, size, p);
      HitStep(start, n, size, p);
    }
  }

  /** Fairness: `k` rounds over an unchanged list choose every position exactly `k` times. */
  lemma RoundRobinIsFair(start: nat, k: nat, size: nat, p: nat)
    requires p < size && Harmless(start, k * size, size)
    ensures Hits(start, k * size, size, p) == k
  {
    HitsClosedForm(start, k * size, size, p);
    DivShift(start - p, k, size);
  }

  /** Across the wrap of the counter the choice stays fair exactly for the list lengths that
      divide 2^32. */
  lemma FairAcrossWrapIff(size: nat)
    requires 0 < size < WRAP
    ensures (forall start, p :: 0 <= start < WRAP && 0 <= p < size ==> Hits(start, size, size, p) == 1) <==> WRAP % size == 0
  {
    if WRAP % size == 0 {
      forall start, p | 0 <= start < WRAP && 0 <= p < size ensures Hits(start, size, size, p) == 1 {
        RoundRobinIsFair(start, 1, size, p);
      }
    } else {
      var start := WRAP - 2;
      LastIsMissed(size, size);
      assert Hits(start, size, size, size - 1) == 0;
    }
  }

  lemma LastNotChosen(size: nat, n: nat)
    requires 0 < size < WRAP && WRAP % size != 0 && 0 < n <= size
    ensures Position(WRAP - 2, n, size) != size - 1
  {
    if n == 1 {
      var q := (WRAP - 1) / size;
      if (WRAP - 1) % size == size - 1 {
        assert WRAP == q * size + size == (q + 1) * size;
        DivUnique(WRAP, size, q + 1, 0);
      }
    } else {
      DivUnique(WRAP - 2 + n, WRAP, 1, n - 2);
    }
  }

  lemma {:induction false} LastIsMissed(size: nat, n: nat)
    requires 0 < size < WRAP && WRAP % size != 0 && n <= size
    ensures Hits(WRAP - 2, n, size, size - 1) == 0
  {
    if n > 0 {
      LastIsMissed(size, n - 1);
      LastNotChosen(size, n);
    }
  }

  // ---------- calls that overlap ----------

  /** A call adds to the counter and then reads it; the read lock lets calls come between. */
  datatype Half = Adds | Reads

  function Added(halves: seq<Half>): nat {
    if halves == [] then 0 else Added(halves[..|halves| - 1]) + if halves[|halves| - 1].Adds? then 1 else 0
  }

  function Answered(halves: seq<Half>): (n: nat)
    ensures n <= |halves| && Added(halves) <= |halves|
  {
    if halves == [] then 0 else Answered(halves[..|halves| - 1]) + if halves[|halves| - 1].Reads? then 1 else 0
  }

  /** The positions chosen, read by read. */
  function Chosen(start: nat, halves: seq<Half>, size: nat): seq<nat>
    requires size > 0
  {
    if halves == [] then [] else
      var before := halves[..|halves| - 1];
      Chosen(start, before, size) + if halves[|halves| - 1].Reads? then [Position(start, Added(before), size)] else []
  }

  /** The positions `n` calls choose one after another. */
  function Row(start: nat, n: nat, size: nat): (r: seq<nat>)
    requires size > 0
    ensures |r| == n
  {
    if n == 0 then [] else Row(start, n - 1, size) + [Position(start, n, size)]
  }

  /** At every read just one more call has added than has been answered. */
  predicate InTurn(halves: seq<Half>) {
    halves != [] ==>
      var before := halves[..|halves| - 1];
      InTurn(before) && (halves[|halves| - 1].Reads? ==> Added(before) == Answered(before) + 1)
  }

  lemma PlainBelowWrap(start: nat, j: nat, size: nat)
    requires size > 0 && start + j < WRAP
    ensures Position(start, j, size) == (start + j) % size
  {
    assert (start + j) % WRAP == start + j;
  }

  lemma PositionsDiffer(start: nat, i: nat, j: nat, size: nat)
    requires i < size && j < size && start + i < WRAP && start + j < WRAP
    ensures Position(start, i, size) == Position(start, j, size) <==> i == j
  {
    PlainBelowWrap(start, i, size);
    PlainBelowWrap(start, j, size);
    CloseAreApart(start + i, start + j, size);
  }

  /** Calls in any overlap choose the positions of a row of calls if and only if no call adds
      before the one ahead of it has read; here before the list and the counter come round. */
  lemma {:induction false} OverlapIff(start: nat, halves: seq<Half>, size: nat)
    requires |halves| < size && start + |halves| < WRAP
    ensures |Chosen(start, halves, size)| == Answered(halves)
    ensures Chosen(start, halves, size) == Row(start, Answered(halves), size) <==> InTurn(halves)
  {
    if halves != [] {
      var before := halves[..|halves| - 1];
      OverlapIff(start, before, size);
      if halves[|halves| - 1].Reads? {
        var i, j := Added(before), Answered(before) + 1;
        PositionsDiffer(start, i, j, size);
        var c, r := Chosen(start, before, size), Row(start, j - 1, size);
        assert (c + [Position(start, i, size)])[..j - 1] == c && (r + [Position(start, j, size)])[..j - 1] == r;
        assert (c + [Position(start, i, size)])[j - 1] == Position(start, i, size);
      }
    }
  }
}
