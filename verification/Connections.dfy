/** The per-connection context and the table of current connections
    (comit/fxsrv/contex.go, comit/fxsrv/connect.go, comit/manage/connectmanage.go). */
module Connections {
  import opened Words
  import opened MinHeaps
  import opened Frames
  import opened Unpacking

  class Contex {
    var values: map<uint64, AckMessage>

    constructor ()
      ensures values == map[]
    {
      values := map[];
    }

    method Set(key: uint64, value: AckMessage)
      modifies this
      ensures values == old(values)[key := value]
    {
      values := values[key := value];
    }

    method Get(key: uint64) returns (value: AckMessage?, ok: bool)
      ensures ok <==> key in values
      ensures ok ==> value == values[key]
    {
      ok := key in values;
      value := if ok then values[key] else null;
    }

    method Delete(key: uint64)
      modifies this
      ensures values == old(values) - {key}
    {
      values := values - {key};
    }
  }

  class Connect {
    const ctx: Contex
    var buff: bytes
    var routed: seq<Request>  // frames handed to routesRun, in order

    constructor ()
      ensures fresh(ctx) && ctx.values == map[] && buff == [] && routed == []
    {
      ctx := new Contex();
      buff, routed := [], [];
    }

    /** These reads, each with the stale bytes it found, have been dealt with. */
    ghost predicate Received(chunks: seq<bytes>, spares: seq<bytes>)
      reads this
      requires |spares| == |chunks|
    {
      Reads(chunks, spares) == Done(routed, buff)
    }

    /** The body of the read loop: append what was read, then unpack. `spare` are the bytes of
        the buffer's backing array behind its length; a slice out of range is a panic. */
    method Read(data: bytes, spare: bytes) returns (panicked: bool)
      modifies this
      ensures panicked <==> Unpack(old(buff) + data, spare).Panic?
      ensures After(old(routed), Unpack(old(buff) + data, spare)) == if panicked then Panic(routed) else Done(routed, buff)
      ensures old(routed) <= routed
      ensures forall chunks: seq<bytes>, spares: seq<bytes> :: |spares| == |chunks| && old(Received(chunks, spares)) ==>
                if panicked then Reads(chunks + [data], spares + [spare]) == Panic(routed) else Received(chunks + [data], spares + [spare])
    {
      buff := buff + data;
      panicked := UnpackAll(spare);
      forall chunks: seq<bytes>, spares: seq<bytes> | |spares| == |chunks| && old(Received(chunks, spares))
        ensures if panicked then Reads(chunks + [data], spares + [spare]) == Panic(routed) else Received(chunks + [data], spares + [spare])
      {
        OneMoreRead(chunks, spares, data, spare);
      }
    }

    method UnpackAll(spare: bytes) returns (panicked: bool)
      modifies this
      ensures panicked <==> Unpack(old(buff), spare).Panic?
      ensures After(old(routed), Unpack(old(buff), spare)) == if panicked then Panic(routed) else Done(routed, buff)
      ensures old(routed) <= routed
    {
      while true
        invariant old(routed) <= routed
        invariant After(routed, Unpack(buff, spare)) == After(old(routed), Unpack(old(buff), spare))
        decreases |buff|
      {
        UnpackStep(routed, buff, spare);
        if |buff| < 5 {
          return false;
        }
        var byts := buff + spare;
        if |byts| < 6 {
          return true;
        }
        var bodylen := FromBe32(byts[2..6]);
        if |buff| - 5 < bodylen as int {
          return false;
        }
        var ty := FromBe16(byts[0..2]);
        if |byts| < 7 {
          return true;
        }
        var flag := byts[6];
        var end := (bodylen as int + 7) % 0x1_0000_0000;
        if end < 7 || |byts| < end {
          return true;
        }
        var body := byts[7..end];
        buff := buff[if end <= |buff| then end else |buff|..];
        routed := routed + [Request(ty, bodylen, flag, body)];
      }
    }
  }

  class ConnectManage {
    var cons: map<uint32, Connect>

    constructor ()
      ensures cons == map[]
    {
      cons := map[];
    }

    method AddConnect(uid: uint32, con: Connect)
      modifies this
      ensures cons == old(cons)[uid := con]
    {
      cons := cons[uid := con];
    }

    method GetConnect(uid: uint32) returns (con: Connect?, ok: bool)
      ensures ok <==> uid in cons
      ensures ok ==> con == cons[uid]
    {
      ok := uid in cons;
      con := if ok then cons[uid] else null;
    }

    method DeleteConnect(uid: uint32)
      modifies this
      ensures cons == old(cons) - {uid}
    {
      cons := cons - {uid};
    }
  }
}
