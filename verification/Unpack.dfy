/** The server's frame parser, `unpack` of comit/fxsrv/connect.go, as it is written: it waits
    for 5 header bytes where the header has 7, and slices the buffer up to its capacity.
    `spare` are the stale bytes between the buffer's length and its capacity. */
module Unpacking {
  import opened Words
  import opened Frames
  import opened Collections

  /** Outcome of one `unpack`: the frames routed and the bytes kept, or a slice out of range. */
  datatype Unpacked = Done(frames: seq<Request>, rest: bytes) | Panic(frames: seq<Request>)

  const WRAP := 0x1_0000_0000

  /** One turn of the loop: stop, panic, or route a frame and drop `used` bytes. */
  datatype Turn = Stop | OutOfRange | Route(request: Request, used: nat)

  function UnpackTurn(buff: bytes, spare: bytes): (t: Turn)
    ensures t.Route? ==> 5 <= |buff| && 0 < t.used <= |buff|
  {
    var byts := buff + spare;
    if |buff| < 5 then Stop
    else if |byts| < 6 then OutOfRange
    else
      var bodylen := FromBe32(byts[2..6]) as int;
      if |buff| - 5 < bodylen then Stop
      else if |byts| < 7 then OutOfRange
      else
        var end := (bodylen + 7) % WRAP;  // bodylen is a uint32 and so is the sum
        if !(7 <= end <= |byts|) then OutOfRange
        else Route(Request(FromBe16(byts[0..2]), bodylen as uint32, byts[6], byts[7..end]), if end <= |buff| then end else |buff|)
  }

  function Unpack(buff: bytes, spare: bytes): Unpacked
    decreases |buff|
  {
    match UnpackTurn(buff, spare)
    case Stop => Done([], buff)
    case OutOfRange => Panic([])
    case Route(request, used) => Routed(request, Unpack(buff[used..], spare))
  }

  function Routed(request: Request, u: Unpacked): Unpacked {
    match u
    case Done(frames, rest) => Done([request] + frames, rest)
    case Panic(frames) => Panic([request] + frames)
  }

  /** The outcome `u` after the frames `done` have been routed before. */
  function After(done: seq<Request>, u: Unpacked): Unpacked {
    match u
    case Done(frames, rest) => Done(done + frames, rest)
    case Panic(frames) => Panic(done + frames)
  }

  lemma {:induction false} UnpackStep(done: seq<Request>, buff: bytes, spare: bytes)
    ensures var t, u := UnpackTurn(buff, spare), After(done, Unpack(buff, spare));
            && (t.Stop? ==> u == Done(done, buff))
            && (t.OutOfRange? ==> u == Panic(done))
            && (t.Route? ==> u == After(done + [t.request], Unpack(buff[t.used..], spare)))
  {
    var t := UnpackTurn(buff, spare);
    if t.Route? {
      Associative(done, [t.request], Unpack(buff[t.used..], spare).frames);
    } else {
      Associative(done, [], []);
    }
  }

  /** Leftovers on which the 5-byte test misfires: exactly 5 bytes of a frame, or all of a
      frame but its last one or two bytes. */
  predicate Risky(rest: bytes) {
    |rest| == 5 || (6 <= |rest| && HEADER + DeclaredLength(rest) - 2 <= |rest| < HEADER + DeclaredLength(rest))
  }

  /** A frame whose end still fits a uint32. */
  predicate Small(r: Request) {
    |r.body| < WRAP - HEADER
  }

  ghost predicate AllSmall(rs: seq<Request>) {
    forall i :: 0 <= i < |rs| ==> Small(rs[i])
  }

  function Whole(b: bytes): Unpacked {
    Done(Parse(b).frames, Parse(b).rest)
  }

  lemma TurnOnFrame(b: bytes, spare: bytes)
    requires HasFrame(b)
    ensures Small(FirstFrame(b)) ==> UnpackTurn(b, spare) == Route(FirstFrame(b), HEADER + DeclaredLength(b))
    ensures !Small(FirstFrame(b)) ==> UnpackTurn(b, spare) == OutOfRange
  {
    var byts := b + spare;
    assert byts[0..2] == b[0..2] && byts[2..6] == b[2..6];
    var n := HEADER + DeclaredLength(b);
    assert byts[7..n] == b[7..n];
  }

  /** What the 5-byte test does with a leftover in a given buffer. With 5 bytes the fourth length
      byte is the first stale one: a length other than 0 makes the parser wait, as it should. */
  predicate Misfires(rest: bytes, spare: bytes) {
    if |rest| == 5 then spare == [] || DeclaredLength(rest + spare[..1]) == 0 else Risky(rest)
  }

  lemma TurnOnRest(b: bytes, spare: bytes)
    requires !HasFrame(b)
    ensures UnpackTurn(b, spare) == Stop <==> !Misfires(b, spare)
    ensures !Risky(b) ==> !Misfires(b, spare)
    ensures Risky(b) ==> Misfires(b, [])
  {
    if |b| >= 6 {
      assert (b + spare)[2..6] == b[2..6];
    } else if |b| == 5 && spare != [] {
      assert (b + spare)[2..6] == (b + spare[..1])[2..6];
    }
  }

  /** `unpack` of one buffer does the work of a 7-byte-header parser if and only if no frame is
      too long and the 5-byte test does not misfire on what is left over. */
  lemma {:induction false} UnpackAgreesOn(b: bytes, spare: bytes)
    ensures Unpack(b, spare) == Whole(b) <==> AllSmall(Parse(b).frames) && !Misfires(Parse(b).rest, spare)
    decreases |b|
  {
    if HasFrame(b) {
      TurnOnFrame(b, spare);
      var tail := Parse(AfterFrame(b));
      assert Parse(b).frames == [FirstFrame(b)] + tail.frames && Parse(b).rest == tail.rest;
      if Small(FirstFrame(b)) {
        UnpackAgreesOn(AfterFrame(b), spare);
        assert ([FirstFrame(b)] + tail.frames)[1..] == tail.frames;
        var u := Unpack(AfterFrame(b), spare);
        assert ([FirstFrame(b)] + u.frames)[1..] == u.frames;
      } else {
        assert !Small(Parse(b).frames[0]);
      }
    } else {
      TurnOnRest(b, spare);
      var t := UnpackTurn(b, spare);
      if t.Route? {
        assert Unpack(b, spare).frames[0] == t.request;
      }
    }
  }

  /** What a misfire does: the leftover and the stale bytes are taken for a frame, if they make up
      one that ends within a uint32, and sliced out of range otherwise. */
  function Misfired(rest: bytes, spare: bytes): Unpacked {
    if HasFrame(rest + spare) && Small(FirstFrame(rest + spare)) then Done([FirstFrame(rest + spare)], []) else Panic([])
  }

  /** A misfire reads a length between what the leftover holds and what a frame needs. */
  lemma MisfireLength(b: bytes, spare: bytes)
    requires !HasFrame(b) && Misfires(b, spare)
    ensures 5 <= |b| && (|b| == 5 ==> spare == [] || DeclaredLength(b + spare) == 0)
    ensures |b + spare| >= 6 ==> |b| - HEADER < DeclaredLength(b + spare) <= |b| - 5
  {
    if |b| >= 6 {
      assert (b + spare)[2..6] == b[2..6];
    } else if spare != [] {
      assert (b + spare)[2..6] == (b + spare[..1])[2..6];
    }
  }

  lemma MisfireTurn(b: bytes, spare: bytes)
    requires !HasFrame(b) && Misfires(b, spare)
    ensures UnpackTurn(b, spare) == if HasFrame(b + spare) && Small(FirstFrame(b + spare)) then Route(FirstFrame(b + spare), |b|) else OutOfRange
  {
    MisfireLength(b, spare);
  }

  lemma MisfireOnRest(b: bytes, spare: bytes)
    requires !HasFrame(b) && Misfires(b, spare)
    ensures Unpack(b, spare) == Misfired(b, spare)
  {
    MisfireTurn(b, spare);
    assert b[|b|..] == [];
  }

  /** What `unpack` does when it does not do the work of a 7-byte-header parser: the frames before a
      misfire are routed, and then that happens. */
  lemma {:induction false} MisfireOutcome(b: bytes, spare: bytes)
    requires AllSmall(Parse(b).frames) && Misfires(Parse(b).rest, spare)
    ensures Unpack(b, spare) == After(Parse(b).frames, Misfired(Parse(b).rest, spare))
    decreases |b|
  {
    if HasFrame(b) {
      var tail := Parse(AfterFrame(b));
      assert Parse(b).frames[0] == FirstFrame(b) && Parse(b).frames[1..] == tail.frames;
      TurnOnFrame(b, spare);
      MisfireOutcome(AfterFrame(b), spare);
      Associative([FirstFrame(b)], tail.frames, Misfired(tail.rest, spare).frames);
    } else {
      MisfireOnRest(b, spare);
      Associative(Misfired(b, spare).frames, [], []);
    }
  }

  /** A frame whose end does not fit a uint32 is sliced out of range, those before it are routed. */
  lemma {:induction false} LongFramePanics(b: bytes, spare: bytes, i: nat)
    requires i < |Parse(b).frames| && !Small(Parse(b).frames[i]) && AllSmall(Parse(b).frames[..i])
    ensures Unpack(b, spare) == Panic(Parse(b).frames[..i])
    decreases |b|
  {
    var frames, tail := Parse(b).frames, Parse(AfterFrame(b)).frames;
    TurnOnFrame(b, spare);
    if i > 0 {
      assert frames[..i][0] == FirstFrame(b) && frames[1..] == tail;
      assert tail[..i - 1] == frames[..i][1..];
      LongFramePanics(AfterFrame(b), spare, i - 1);
    }
  }

  lemma CleanAgrees(b: bytes, spare: bytes)
    requires AllSmall(Parse(b).frames) && !Risky(Parse(b).rest)
    ensures Unpack(b, spare) == Whole(b)
  {
    UnpackAgreesOn(b, spare);
    ParseIsExact(b);
    TurnOnRest(Parse(b).rest, spare);
  }

  /** Without spare capacity the misfiring is always a slice out of range. */
  lemma {:induction false} UncleanPanics(b: bytes)
    requires !AllSmall(Parse(b).frames) || Risky(Parse(b).rest)
    ensures Unpack(b, []).Panic?
    decreases |b|
  {
    if HasFrame(b) {
      TurnOnFrame(b, []);
      if Small(FirstFrame(b)) {
        assert Parse(b).frames == [FirstFrame(b)] + Parse(AfterFrame(b)).frames;
        UncleanPanics(AfterFrame(b));
      }
    } else {
      TurnOnRest(b, []);
      assert b + [] == b;
    }
  }

  /** `unpack` does the work of a 7-byte-header parser, whatever stale bytes lie behind the
      buffer, if and only if no frame is too long and what is left over is not risky. */
  lemma UnpackAgreesIff(b: bytes)
    ensures (forall spare :: Unpack(b, spare) == Whole(b)) <==> AllSmall(Parse(b).frames) && !Risky(Parse(b).rest)
  {
    if AllSmall(Parse(b).frames) && !Risky(Parse(b).rest) {
      forall spare ensures Unpack(b, spare) == Whole(b) {
        CleanAgrees(b, spare);
      }
    } else {
      UnpackAgreesOn(b, []);
      ParseIsExact(b);
      TurnOnRest(Parse(b).rest, []);
    }
  }

  // ---------- over a whole connection ----------

  /** Read after read: each appends its bytes to what was kept and unpacks. */
  function Reads(chunks: seq<bytes>, spares: seq<bytes>): Unpacked
    requires |spares| == |chunks|
  {
    if chunks == [] then Done([], []) else
      var last := |chunks| - 1;
      match Reads(chunks[..last], spares[..last])
      case Panic(frames) => Panic(frames)
      case Done(frames, rest) =>
        match Unpack(rest + chunks[last], spares[last])
        case Panic(more) => Panic(frames + more)
        case Done(more, rest') => Done(frames + more, rest')
  }

  /** One more read goes on from what was routed and kept. */
  lemma OneMoreRead(chunks: seq<bytes>, spares: seq<bytes>, chunk: bytes, spare: bytes)
    requires |spares| == |chunks| && Reads(chunks, spares).Done?
    ensures var u := Reads(chunks, spares); Reads(chunks + [chunk], spares + [spare]) == After(u.frames, Unpack(u.rest + chunk, spare))
  {
    assert (chunks + [chunk])[..|chunks|] == chunks && (spares + [spare])[..|spares|] == spares;
  }

  /** Bytes of the stream that `rs` stand for. */
  function Weight(rs: seq<Request>): nat {
    if rs == [] then 0 else HEADER + |rs[0].body| + Weight(rs[1..])
  }

  lemma {:induction false} WeightOfConcat(a: seq<Request>, b: seq<Request>)
    ensures Weight(a + b) == Weight(a) + Weight(b)
  {
    if a == [] {
      assert a + b == b;
    } else {
      WeightOfConcat(a[1..], b);
      assert (a + b)[0] == a[0] && (a + b)[1..] == a[1..] + b;
    }
  }

  lemma {:induction false} WeightIsPrinted(rs: seq<Request>)
    ensures Weight(rs) == |PrintAll(rs)|
  {
    if rs != [] {
      WeightIsPrinted(rs[1..]);
    }
  }

  /** What `unpack` routes and keeps stands for at least the bytes it had, and for more if it did
      not do the work of a 7-byte-header parser. */
  lemma {:induction false} UnpackWeighs(b: bytes, spare: bytes)
    requires Unpack(b, spare).Done?
    ensures var u := Unpack(b, spare); |b| <= Weight(u.frames) + |u.rest|
    ensures var u := Unpack(b, spare); |b| == Weight(u.frames) + |u.rest| ==> u == Whole(b)
    decreases |b|
  {
    if HasFrame(b) {
      TurnOnFrame(b, spare);
      UnpackWeighs(AfterFrame(b), spare);
      var tail := Unpack(AfterFrame(b), spare);
      assert ([FirstFrame(b)] + tail.frames)[1..] == tail.frames;
    } else {
      TurnOnRest(b, spare);
      if Misfires(b, spare) {
        MisrouteWeighs(b, spare);
      }
    }
  }

  /** A frame made up with stale bytes is longer than the bytes it was made from. */
  lemma MisrouteWeighs(b: bytes, spare: bytes)
    requires !HasFrame(b) && Misfires(b, spare) && Unpack(b, spare).Done?
    ensures var u := Unpack(b, spare); |b| < Weight(u.frames) + |u.rest|
  {
    MisfireOnRest(b, spare);
    MisfireLength(b, spare);
    assert [FirstFrame(b + spare)][1..] == [];
  }

  /** The 5-byte test does not misfire on what is left over after read `i`. */
  predicate CleanAt(chunks: seq<bytes>, spares: seq<bytes>, i: nat)
    requires i < |chunks| == |spares|
  {
    !Misfires(Parse(Concat(chunks[..i + 1])).rest, spares[i])
  }

  ghost predicate CleanReads(chunks: seq<bytes>, spares: seq<bytes>)
    requires |spares| == |chunks|
  {
    forall i :: 0 <= i < |chunks| ==> CleanAt(chunks, spares, i)
  }

  lemma CleanAtBefore(chunks: seq<bytes>, spares: seq<bytes>, i: nat)
    requires |spares| == |chunks| && i < |chunks| - 1
    ensures var last := |chunks| - 1; CleanAt(chunks[..last], spares[..last], i) == CleanAt(chunks, spares, i)
  {
    assert chunks[..|chunks| - 1][..i + 1] == chunks[..i + 1];
  }

  lemma CleanBefore(chunks: seq<bytes>, spares: seq<bytes>)
    requires |spares| == |chunks| > 0
    ensures var last := |chunks| - 1;
            CleanReads(chunks, spares) <==>
            CleanReads(chunks[..last], spares[..last]) && !Misfires(Parse(Concat(chunks)).rest, spares[last])
  {
    var last := |chunks| - 1;
    forall i | 0 <= i < last ensures CleanAt(chunks[..last], spares[..last], i) == CleanAt(chunks, spares, i) {
      CleanAtBefore(chunks, spares, i);
    }
    assert chunks[..last + 1] == chunks;
    assert CleanAt(chunks, spares, last) == !Misfires(Parse(Concat(chunks)).rest, spares[last]);
  }

  lemma AllSmallOfConcat(a: seq<Request>, b: seq<Request>)
    ensures AllSmall(a + b) <==> AllSmall(a) && AllSmall(b)
  {
    assert forall i :: 0 <= i < |a| ==> a[i] == (a + b)[i];
    assert forall i :: 0 <= i < |b| ==> b[i] == (a + b)[|a| + i];
  }

  /** Over a connection whose reads all end cleanly the server routes exactly the frames of the
      byte stream. */
  lemma {:induction false} CleanReadsAgree(chunks: seq<bytes>, spares: seq<bytes>)
    requires |spares| == |chunks| && CleanReads(chunks, spares) && AllSmall(Parse(Concat(chunks)).frames)
    ensures Reads(chunks, spares) == Whole(Concat(chunks))
  {
    if chunks != [] {
      var last := |chunks| - 1;
      var before, chunk := chunks[..last], chunks[last];
      ParseResumes(Concat(before), chunk);
      var p := Parse(Concat(before));
      AllSmallOfConcat(p.frames, Parse(p.rest + chunk).frames);
      CleanBefore(chunks, spares);
      CleanReadsAgree(before, spares[..last]);
      UnpackAgreesOn(p.rest + chunk, spares[last]);
    }
  }

  /** What a connection has routed and kept stands for at least the bytes it received, and for
      just these only if it was right all along: one misfire can never be made up for. */
  lemma {:induction false} ReadsWeigh(chunks: seq<bytes>, spares: seq<bytes>)
    requires |spares| == |chunks| && Reads(chunks, spares).Done?
    ensures var u := Reads(chunks, spares); |Concat(chunks)| <= Weight(u.frames) + |u.rest|
    ensures var u := Reads(chunks, spares);
            |Concat(chunks)| == Weight(u.frames) + |u.rest| ==>
              u == Whole(Concat(chunks)) && CleanReads(chunks, spares) && AllSmall(u.frames)
  {
    if chunks != [] {
      var last := |chunks| - 1;
      var before, chunk := chunks[..last], chunks[last];
      ReadsWeigh(before, spares[..last]);
      var u := Reads(before, spares[..last]);
      var v := Unpack(u.rest + chunk, spares[last]);
      UnpackWeighs(u.rest + chunk, spares[last]);
      UnpackAgreesOn(u.rest + chunk, spares[last]);
      WeightOfConcat(u.frames, v.frames);
      ParseResumes(Concat(before), chunk);
      AllSmallOfConcat(u.frames, v.frames);
      CleanBefore(chunks, spares);
    }
  }

  /** The exact condition for a whole connection, given the stale bytes at each read: no frame is
      too long, and no read leaves bytes on which the 5-byte test misfires. */
  lemma ReadsAgreeIff(chunks: seq<bytes>, spares: seq<bytes>)
    requires |spares| == |chunks|
    ensures Reads(chunks, spares) == Whole(Concat(chunks)) <==>
              AllSmall(Parse(Concat(chunks)).frames) && CleanReads(chunks, spares)
  {
    if Reads(chunks, spares) == Whole(Concat(chunks)) {
      ParseIsExact(Concat(chunks));
      WeightIsPrinted(Parse(Concat(chunks)).frames);
      ReadsWeigh(chunks, spares);
    } else if AllSmall(Parse(Concat(chunks)).frames) && CleanReads(chunks, spares) {
      CleanReadsAgree(chunks, spares);
    }
  }

  /** In the printed stream of `rs`, byte `n` is not 5 bytes into a frame, nor one or two
      bytes before the end of one. */
  predicate SafeCut(rs: seq<Request>, n: nat) {
    if rs == [] then true else
      var size := HEADER + |rs[0].body|;
      if size <= n then SafeCut(rs[1..], n - size) else n != 5 && n != size - 1 && n != size - 2
  }

  /** Cutting the stream at a safe byte, and only there, leaves no risky rest. */
  lemma {:induction false} SafeCutsAreClean(rs: seq<Request>, n: nat)
    requires AllSized(rs) && n <= |PrintAll(rs)|
    ensures Risky(Parse(PrintAll(rs)[..n]).rest) <==> !SafeCut(rs, n)
    decreases |rs|
  {
    if rs != [] {
      var r, tail := rs[0], rs[1..];
      var size := HEADER + |r.body|;
      if size <= n {
        assert PrintAll(rs)[..n] == Print(r) + PrintAll(tail)[..n - size];
        ParsePrinted(r, PrintAll(tail)[..n - size]);
        SafeCutsAreClean(tail, n - size);
      } else {
        assert PrintAll(rs)[..n] == Print(r)[..n];
        CutFrame(r, n);
      }
    }
  }

  lemma CutFrame(r: Request, n: nat)
    requires Sized(r) && n < HEADER + |r.body|
    ensures Parse(Print(r)[..n]) == Parsed([], Print(r)[..n])
    ensures Risky(Print(r)[..n]) <==> n == 5 || n == HEADER + |r.body| - 1 || n == HEADER + |r.body| - 2
  {
    PrintedFrameIsFirst(r, []);
    assert Print(r) + [] == Print(r);
    if 6 <= n {
      assert Print(r)[..n][2..6] == Print(r)[2..6];
    }
  }

  /** A frame received only in part, without spare capacity: 5 of its bytes, or all but its last one
      or two, panic; any other part is kept for the next read. */
  lemma PartialFrame(r: Request, n: nat)
    requires Sized(r) && n < 7 + |r.body|
    ensures Unpack(Print(r)[..n], []) == if n == 5 || n == 6 + |r.body| || n == 5 + |r.body| then Panic([]) else Done([], Print(r)[..n])
  {
    CutFrame(r, n);
    var part := Print(r)[..n];
    if Risky(part) {
      TurnOnRest(part, []);
      MisfireOnRest(part, []);
      assert part + [] == part;
    } else {
      CleanAgrees(part, []);
    }
  }

  lemma LeftoverIsRisky(rs: seq<Request>, chunks: seq<bytes>, i: nat)
    requires AllSized(rs) && Concat(chunks) == PrintAll(rs) && i <= |chunks|
    ensures Risky(Parse(Concat(chunks[..i])).rest) <==> !SafeCut(rs, |Concat(chunks[..i])|)
  {
    ConcatPrefix(chunks, i);
    SafeCutsAreClean(rs, |Concat(chunks[..i])|);
  }

  lemma LeftoverMisfires(b: bytes, spare: bytes)
    ensures var rest := Parse(b).rest; (!Risky(rest) ==> !Misfires(rest, spare)) && (Risky(rest) ==> Misfires(rest, []))
  {
    ParseIsExact(b);
    TurnOnRest(Parse(b).rest, spare);
  }

  /** The server receives a client's frames: whatever sizes the reads have, as long as none
      ends at an unsafe byte, exactly the frames sent are routed, in order, and nothing is left. */
  lemma SafeReadsDeliver(rs: seq<Request>, chunks: seq<bytes>, spares: seq<bytes>)
    requires |spares| == |chunks| && AllSized(rs) && AllSmall(rs) && Concat(chunks) == PrintAll(rs)
    requires forall i :: 0 < i <= |chunks| ==> SafeCut(rs, |Concat(chunks[..i])|)
    ensures Reads(chunks, spares) == Done(rs, [])
  {
    forall i | 0 <= i < |chunks| ensures CleanAt(chunks, spares, i) {
      LeftoverIsRisky(rs, chunks, i + 1);
      LeftoverMisfires(Concat(chunks[..i + 1]), spares[i]);
    }
    WholeOfPrinted(rs);
    CleanReadsAgree(chunks, spares);
  }

  lemma WholeOfPrinted(rs: seq<Request>)
    requires AllSized(rs)
    ensures Whole(PrintAll(rs)) == Done(rs, [])
  {
    ParseInvertsPrint(rs, []);
    assert PrintAll(rs) + [] == PrintAll(rs) && rs + [] == rs;
  }

  /** And only then: if a read ends at an unsafe byte, the frames sent are not what is routed from
      buffers without spare capacity. */
  lemma UnsafeReadsFail(rs: seq<Request>, chunks: seq<bytes>, spares: seq<bytes>, i: nat)
    requires |spares| == |chunks| && AllSized(rs) && Concat(chunks) == PrintAll(rs)
    requires 0 < i <= |chunks| && !SafeCut(rs, |Concat(chunks[..i])|) && spares[i - 1] == []
    ensures Reads(chunks, spares) != Done(rs, [])
  {
    LeftoverIsRisky(rs, chunks, i);
    LeftoverMisfires(Concat(chunks[..i]), []);
    WholeOfPrinted(rs);
    assert !CleanAt(chunks, spares, i - 1);
    ReadsAgreeIff(chunks, spares);
  }

  function NoSpares(n: nat): (spares: seq<bytes>)
    ensures |spares| == n && forall i :: 0 <= i < n ==> spares[i] == []
  {
    seq(n, _ => [])
  }

  /** A client's frames get through whatever lies behind the buffer if and only if no read ends
      5 bytes into a frame or one or two bytes before the end of one. */
  lemma DeliversIff(rs: seq<Request>, chunks: seq<bytes>)
    requires AllSized(rs) && AllSmall(rs) && Concat(chunks) == PrintAll(rs)
    ensures (forall spares: seq<bytes> :: |spares| == |chunks| ==> Reads(chunks, spares) == Done(rs, []))
       <==> forall i :: 0 < i <= |chunks| ==> SafeCut(rs, |Concat(chunks[..i])|)
  {
    if forall i :: 0 < i <= |chunks| ==> SafeCut(rs, |Concat(chunks[..i])|) {
      forall spares: seq<bytes> | |spares| == |chunks| ensures Reads(chunks, spares) == Done(rs, []) {
        SafeReadsDeliver(rs, chunks, spares);
      }
    } else {
      var i :| 0 < i <= |chunks| && !SafeCut(rs, |Concat(chunks[..i])|);
      UnsafeReadsFail(rs, chunks, NoSpares(|chunks|), i);
    }
  }

  lemma {:induction false} ConcatPrefix(chunks: seq<bytes>, i: nat)
    requires i <= |chunks|
    ensures |Concat(chunks[..i])| <= |Concat(chunks)| && Concat(chunks[..i]) == Concat(chunks)[..|Concat(chunks[..i])|]
    decreases |chunks|
  {
    if i < |chunks| {
      ConcatPrefix(chunks[..|chunks| - 1], i);
      assert chunks[..|chunks| - 1][..i] == chunks[..i];
    } else {
      assert chunks[..i] == chunks;
    }
  }
}
