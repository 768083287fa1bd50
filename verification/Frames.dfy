/** Wire frames: a big-endian header of type (2 bytes), body length (4) and flag (1), then the
    body. `Request` is the frame of comit/fxsrv/request.go and the `Message` of
    client/flutter_im/lib/net/networkmanage.dart. */
module Frames {
  import opened Words
  import opened Collections

  datatype Request = Request(ty: uint16, bodyLen: uint32, flag: byte, body: bytes)

  const HEADER := 7

  /** The lowest `n` bytes of `x`, most significant first. */
  function BigEndian(x: nat, n: nat): (b: bytes)
    ensures |b| == n
  {
    if n == 0 then [] else BigEndian(x / 0x100, n - 1) + [(x % 0x100) as byte]
  }

  function FromBigEndian(b: bytes): nat {
    if b == [] then 0 else FromBigEndian(b[..|b| - 1]) * 0x100 + b[|b| - 1] as nat
  }

  function Pow256(n: nat): nat {
    if n == 0 then 1 else 0x100 * Pow256(n - 1)
  }

  lemma {:induction false} BigEndianRoundTrip(x: nat, n: nat)
    requires x < Pow256(n)
    ensures FromBigEndian(BigEndian(x, n)) == x
  {
    if n > 0 {
      BigEndianRoundTrip(x / 0x100, n - 1);
    }
  }

  lemma {:induction false} FromBigEndianRoundTrip(b: bytes)
    ensures FromBigEndian(b) < Pow256(|b|) && BigEndian(FromBigEndian(b), |b|) == b
  {
    if b != [] {
      FromBigEndianRoundTrip(b[..|b| - 1]);
    }
  }

  /** Most significant byte first: what stands before `b` counts 256 times as much for each byte of it. */
  lemma {:induction false} FromBigEndianConcat(a: bytes, b: bytes)
    ensures FromBigEndian(a + b) == FromBigEndian(a) * Pow256(|b|) + FromBigEndian(b)
  {
    if b == [] {
      assert a + b == a;
    } else {
      var c := b[..|b| - 1];
      FromBigEndianConcat(a, c);
      assert (a + b)[..|a + b| - 1] == a + c;
      assert FromBigEndian(a) * (0x100 * Pow256(|c|)) == FromBigEndian(a) * Pow256(|c|) * 0x100;
    }
  }

  lemma OneByte(x: byte)
    ensures FromBigEndian([x]) == x as nat
  {
    assert [x][..0] == [];
  }

  lemma TwoBytes(b: bytes)
    requires |b| == 2
    ensures FromBigEndian(b) == b[0] as nat * 0x100 + b[1] as nat
  {
    assert b == [b[0]] + [b[1]] && Pow256(1) == 0x100 * Pow256(0);
    FromBigEndianConcat([b[0]], [b[1]]);
    OneByte(b[0]);
    OneByte(b[1]);
  }

  lemma FourBytes(b: bytes)
    requires |b| == 4
    ensures FromBigEndian(b) == b[0] as nat * 0x100_0000 + b[1] as nat * 0x1_0000 + b[2] as nat * 0x100 + b[3] as nat
  {
    assert b == b[..2] + b[2..] && Pow256(2) == 0x100 * (0x100 * Pow256(0));
    FromBigEndianConcat(b[..2], b[2..]);
    TwoBytes(b[..2]);
    TwoBytes(b[2..]);
  }

  function FromBe16(b: bytes): uint16
    requires |b| == 2
  {
    FromBigEndianRoundTrip(b);
    assert Pow256(2) == 0x1_0000;
    FromBigEndian(b) as uint16
  }

  function FromBe32(b: bytes): uint32
    requires |b| == 4
  {
    FromBigEndianRoundTrip(b);
    assert Pow256(4) == 0x1_0000_0000;
    FromBigEndian(b) as uint32
  }

  // ---------- printing ----------

  /** The bytes of a frame: the declared length is printed as it stands. */
  function Print(r: Request): (b: bytes)
    ensures |b| == HEADER + |r.body|
  {
    BigEndian(r.ty as nat, 2) + BigEndian(r.bodyLen as nat, 4) + [r.flag] + r.body
  }

  /** A frame byte by byte: type, length, flag, body, each number most significant byte first. */
  lemma PrintLayout(r: Request)
    ensures var b := Print(r);
            && b[0] as nat * 0x100 + b[1] as nat == r.ty as nat
            && b[2] as nat * 0x100_0000 + b[3] as nat * 0x1_0000 + b[4] as nat * 0x100 + b[5] as nat == r.bodyLen as nat
            && b[6] == r.flag && b[7..] == r.body
  {
    var b := Print(r);
    assert Pow256(2) == 0x1_0000 && Pow256(4) == 0x1_0000_0000;
    BigEndianRoundTrip(r.ty as nat, 2);
    BigEndianRoundTrip(r.bodyLen as nat, 4);
    assert b[0..2] == BigEndian(r.ty as nat, 2) && b[2..6] == BigEndian(r.bodyLen as nat, 4);
    TwoBytes(b[0..2]);
    FourBytes(b[2..6]);
  }

  /** Request.GetBytes: the fields written one after another. */
  method GetBytes(r: Request) returns (buf: bytes)
    ensures buf == Print(r)
    ensures |buf| == 7 + |r.body| && buf[6] == r.flag && buf[7..] == r.body
    ensures buf[0] as nat * 0x100 + buf[1] as nat == r.ty as nat
    ensures buf[2] as nat * 0x100_0000 + buf[3] as nat * 0x1_0000 + buf[4] as nat * 0x100 + buf[5] as nat == r.bodyLen as nat
  {
    PrintLayout(r);
    buf := [];
    buf := buf + BigEndian(r.ty as nat, 2);
    buf := buf + BigEndian(r.bodyLen as nat, 4);
    buf := buf + [r.flag];
    buf := buf + r.body;
  }

  function PrintAll(rs: seq<Request>): bytes {
    if rs == [] then [] else Print(rs[0]) + PrintAll(rs[1..])
  }

  /** The declared length is the length of the body. */
  predicate Sized(r: Request) {
    r.bodyLen as int == |r.body|
  }

  ghost predicate AllSized(rs: seq<Request>) {
    forall i :: 0 <= i < |rs| ==> Sized(rs[i])
  }

  // ---------- parsing ----------

  /** The frames of a buffer and the bytes after the last complete one. */
  datatype Parsed = Parsed(frames: seq<Request>, rest: bytes)

  function DeclaredLength(b: bytes): nat
    requires HEADER - 1 <= |b|
  {
    FromBe32(b[2..6]) as int
  }

  /** The buffer starts with a complete frame. */
  predicate HasFrame(b: bytes) {
    HEADER <= |b| && HEADER + DeclaredLength(b) <= |b|
  }

  function FirstFrame(b: bytes): Request
    requires HasFrame(b)
  {
    Request(FromBe16(b[0..2]), FromBe32(b[2..6]), b[6], b[HEADER..HEADER + DeclaredLength(b)])
  }

  function AfterFrame(b: bytes): bytes
    requires HasFrame(b)
  {
    b[HEADER + DeclaredLength(b)..]
  }

  /** The first frame of a buffer byte by byte. */
  lemma FirstFrameLayout(b: bytes)
    requires HEADER <= |b|
    ensures DeclaredLength(b) == b[2] as nat * 0x100_0000 + b[3] as nat * 0x1_0000 + b[4] as nat * 0x100 + b[5] as nat
    ensures HasFrame(b) ==>
              var r := FirstFrame(b);
              && r.ty as nat == b[0] as nat * 0x100 + b[1] as nat && r.bodyLen as nat == DeclaredLength(b)
              && r.flag == b[6] && r.body == b[7..7 + DeclaredLength(b)] && AfterFrame(b) == b[7 + DeclaredLength(b)..]
  {
    TwoBytes(b[0..2]);
    FourBytes(b[2..6]);
  }

  function Parse(b: bytes): Parsed
    decreases |b|
  {
    if HasFrame(b) then
      var tail := Parse(AfterFrame(b));
      Parsed([FirstFrame(b)] + tail.frames, tail.rest)
    else Parsed([], b)
  }

  /** Printing the first frame and putting the tail behind it gives the buffer back. */
  lemma FirstFramePrints(b: bytes)
    requires HasFrame(b)
    ensures Sized(FirstFrame(b)) && Print(FirstFrame(b)) + AfterFrame(b) == b
  {
    FromBigEndianRoundTrip(b[0..2]);
    FromBigEndianRoundTrip(b[2..6]);
    var n := HEADER + DeclaredLength(b);
    assert b == b[0..2] + b[2..6] + [b[6]] + b[HEADER..n] + b[n..];
  }

  /** A printed frame in front of anything is the first frame parsed. */
  lemma PrintedFrameIsFirst(r: Request, b: bytes)
    requires Sized(r)
    ensures HasFrame(Print(r) + b) && FirstFrame(Print(r) + b) == r && AfterFrame(Print(r) + b) == b
  {
    var s := Print(r) + b;
    assert Pow256(2) == 0x1_0000 && Pow256(4) == 0x1_0000_0000;
    BigEndianRoundTrip(r.ty as nat, 2);
    BigEndianRoundTrip(r.bodyLen as nat, 4);
    assert s[0..2] == BigEndian(r.ty as nat, 2);
    assert s[2..6] == BigEndian(r.bodyLen as nat, 4);
    assert s[HEADER..HEADER + |r.body|] == r.body;
  }

  /** Parsing takes nothing away and adds nothing: the frames printed, followed by the rest,
      are the buffer; every frame has its declared length; the rest holds no frame. */
  lemma {:induction false} ParseIsExact(b: bytes)
    ensures var p := Parse(b);
            PrintAll(p.frames) + p.rest == b && AllSized(p.frames) && !HasFrame(p.rest)
    decreases |b|
  {
    if HasFrame(b) {
      ParseIsExact(AfterFrame(b));
      FirstFramePrints(b);
      var tail := Parse(AfterFrame(b));
      assert ([FirstFrame(b)] + tail.frames)[1..] == tail.frames;
      assert Print(FirstFrame(b)) + (PrintAll(tail.frames) + tail.rest) == Print(FirstFrame(b)) + PrintAll(tail.frames) + tail.rest;
    }
  }

  lemma ParsePrinted(r: Request, b: bytes)
    requires Sized(r)
    ensures Parse(Print(r) + b) == Parsed([r] + Parse(b).frames, Parse(b).rest)
  {
    PrintedFrameIsFirst(r, b);
  }

  /** Parsing inverts printing, whatever follows the printed frames. */
  lemma {:induction false} ParseInvertsPrint(rs: seq<Request>, b: bytes)
    requires AllSized(rs)
    ensures Parse(PrintAll(rs) + b) == Parsed(rs + Parse(b).frames, Parse(b).rest)
  {
    if rs == [] {
      assert PrintAll(rs) + b == b;
    } else {
      var r, tail := rs[0], rs[1..];
      ParseInvertsPrint(tail, b);
      ParsePrinted(r, PrintAll(tail) + b);
      Associative(Print(r), PrintAll(tail), b);
      Associative([r], tail, Parse(b).frames);
      assert rs == [r] + tail;
    }
  }

  /** Bytes behind a complete frame do not change it. */
  lemma FirstFrameStays(a: bytes, b: bytes)
    requires HasFrame(a)
    ensures HasFrame(a + b) && FirstFrame(a + b) == FirstFrame(a) && AfterFrame(a + b) == AfterFrame(a) + b
  {
    assert (a + b)[2..6] == a[2..6] && (a + b)[0..2] == a[0..2];
    var n := HEADER + DeclaredLength(a);
    assert (a + b)[HEADER..n] == a[HEADER..n];
    assert (a + b)[n..] == a[n..] + b;
  }

  /** Parsing what is left over together with new bytes continues the parse. */
  lemma {:induction false} ParseResumes(a: bytes, b: bytes)
    ensures var p := Parse(a);
            var q := Parse(p.rest + b);
            Parse(a + b) == Parsed(p.frames + q.frames, q.rest)
    decreases |a|
  {
    if HasFrame(a) {
      FirstFrameStays(a, b);
      ParseResumes(AfterFrame(a), b);
      var t := Parse(AfterFrame(a));
      Associative([FirstFrame(a)], t.frames, Parse(t.rest + b).frames);
    } else {
      Associative([], [], Parse(a + b).frames);
    }
  }

  // ---------- arrival in chunks ----------

  function Concat(chunks: seq<bytes>): bytes {
    if chunks == [] then [] else Concat(chunks[..|chunks| - 1]) + chunks[|chunks| - 1]
  }

  /** Feeding chunk after chunk to a parser that keeps the unfinished rest. */
  function Feed(chunks: seq<bytes>): Parsed {
    if chunks == [] then Parsed([], []) else
      var p := Feed(chunks[..|chunks| - 1]);
      var q := Parse(p.rest + chunks[|chunks| - 1]);
      Parsed(p.frames + q.frames, q.rest)
  }

  /** However the bytes are cut into chunks, the outcome is that of parsing them at once. */
  lemma {:induction false} ChunkInvariance(chunks: seq<bytes>)
    ensures Feed(chunks) == Parse(Concat(chunks))
  {
    if chunks != [] {
      var before := chunks[..|chunks| - 1];
      ChunkInvariance(before);
      ParseResumes(Concat(before), chunks[|chunks| - 1]);
    }
  }

  /** Whatever chunks a stream of well-sized frames arrives in, exactly those frames come out,
      in order, and what is left is the unfinished last frame. */
  lemma StreamDelivered(rs: seq<Request>, unfinished: bytes, chunks: seq<bytes>)
    requires AllSized(rs) && !HasFrame(unfinished) && Concat(chunks) == PrintAll(rs) + unfinished
    ensures Feed(chunks) == Parsed(rs, unfinished)
  {
    ChunkInvariance(chunks);
    ParseInvertsPrint(rs, unfinished);
  }
}
