/** The client's side of the wire, `NetWorkManage` of
    client/flutter_im/lib/net/networkmanage.dart. */
module NetWork {
  import opened Words
  import opened Frames
  import opened Collections

  class NetWorkManage {
    var cacheData: bytes
    var routed: seq<Request>  // frames handed to handles.route, in order
    var written: bytes        // bytes added to the socket

    constructor ()
      ensures cacheData == [] && routed == [] && written == []
    {
      cacheData, routed, written := [], [], [];
    }

    /** The bytes received so far have been dealt with. */
    ghost predicate Received(chunks: seq<bytes>)
      reads this
    {
      Feed(chunks) == Parsed(routed, cacheData)
    }

    method DecodeHandle(data: bytes)
      modifies this
      ensures Parsed(routed, cacheData) == var p := Parse(old(cacheData) + data); Parsed(old(routed) + p.frames, p.rest)
      ensures written == old(written)
      ensures old(routed) <= routed && AllSized(routed[|old(routed)|..]) && !HasFrame(cacheData)
      ensures PrintAll(routed[|old(routed)|..]) + cacheData == old(cacheData) + data
      ensures forall chunks :: old(Received(chunks)) ==> Received(chunks + [data])
    {
      cacheData := cacheData + data;
      ghost var whole := cacheData;
      while |cacheData| >= 7
        invariant written == old(written)
        invariant old(routed) + Parse(whole).frames == routed + Parse(cacheData).frames
        invariant Parse(whole).rest == Parse(cacheData).rest
        decreases |cacheData|
      {
        var ty := FromBe16(cacheData[0..2]);
        var len := FromBe32(cacheData[2..6]);
        if len as int + 7 > |cacheData| {
          break;
        }
        var flag := cacheData[6];
        var body := cacheData[7..len as int + 7];
        Associative(routed, [FirstFrame(cacheData)], Parse(AfterFrame(cacheData)).frames);
        cacheData := cacheData[7 + len as int..];
        routed := routed + [Request(ty, len, flag, body)];
      }
      Associative(routed, [], []);
      ParseIsExact(whole);
      assert routed[|old(routed)|..] == Parse(whole).frames;
      forall chunks | old(Received(chunks)) ensures Received(chunks + [data]) {
        assert (chunks + [data])[..|chunks|] == chunks;
      }
    }

    /** `ty`, `len` and `flag` are Dart integers; the ByteData setters keep their low bytes. */
    method Send(ty: int, len: int, flag: int, body: bytes)
      modifies this
      ensures written == old(written) + Print(Request((ty % 0x1_0000) as uint16, (len % 0x1_0000_0000) as uint32, (flag % 0x100) as byte, body))
      ensures var b := written[|old(written)|..];
              && old(written) <= written && |b| == 7 + |body| && b[7..] == body && b[6] as int == flag % 0x100
              && b[0] as int * 0x100 + b[1] as int == ty % 0x1_0000
              && b[2] as int * 0x100_0000 + b[3] as int * 0x1_0000 + b[4] as int * 0x100 + b[5] as int == len % 0x1_0000_0000
      ensures cacheData == old(cacheData) && routed == old(routed)
    {
      PrintLayout(Request((ty % 0x1_0000) as uint16, (len % 0x1_0000_0000) as uint32, (flag % 0x100) as byte, body));
      var header := BigEndian(ty % 0x1_0000, 2) + BigEndian(len % 0x1_0000_0000, 4) + [(flag % 0x100) as byte];
      written := written + (header + body);
      assert written[|old(written)|..] == header + body;
    }
  }
}
