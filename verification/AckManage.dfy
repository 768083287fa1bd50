/** The acknowledgement and retry manager, `AckMessageManage` of comit/manage/ackmessage.go. */
module AckManage {
  import opened Words
  import opened RetrySpec
  import opened TickSpec
  import opened Thefts
  import opened MinHeaps
  import opened HeapOrder
  import opened Connections
  import opened Frames

  /** What one turn of the tick's loop did with the message it took off the heap. */
  datatype Fate = NoConnection | GivenUp | WriteFailed | Sent(request: Request)

  /** The request that sends a queued message again: it carries the message's type and body, and
      the body's length unless that takes more than 32 bits. */
  function RequestOf(m: AckMessage): (r: Request)
    ensures r.ty as int == m.gropOrOne as int && r.flag == 0 && r.body == m.body
    ensures |m.body| < 0x1_0000_0000 ==> Sized(r)
  {
    Request(m.gropOrOne as uint16, (|m.body| % 0x1_0000_0000) as uint32, 0, m.body)
  }

  function RequestsOf(sent: seq<AckMessage>): seq<Request> {
    if sent == [] then [] else RequestsOf(sent[..|sent| - 1]) + [RequestOf(sent[|sent| - 1])]
  }

  /** The requests carry the messages: same type, same body and its length. */
  lemma {:induction false} RequestsCarry(sent: seq<AckMessage>)
    ensures var requests := RequestsOf(sent);
            |requests| == |sent| && forall i :: 0 <= i < |sent| ==>
              && requests[i].ty as int == sent[i].gropOrOne as int && requests[i].flag == 0 && requests[i].body == sent[i].body
              && (|sent[i].body| < 0x1_0000_0000 ==> Sized(requests[i]))
  {
    if sent != [] {
      RequestsCarry(sent[..|sent| - 1]);
    }
  }

  /** A client that receives the requests of a tick reads exactly these messages. */
  lemma ResentAreRead(sent: seq<AckMessage>, unfinished: bytes)
    requires !HasFrame(unfinished) && forall i :: 0 <= i < |sent| ==> |sent[i].body| < 0x1_0000_0000
    ensures var p := Parse(PrintAll(RequestsOf(sent)) + unfinished);
            && |p.frames| == |sent| && p.rest == unfinished
            && forall i :: 0 <= i < |sent| ==> p.frames[i].ty as int == sent[i].gropOrOne as int && p.frames[i].body == sent[i].body
  {
    RequestsCarry(sent);
    ParseInvertsPrint(RequestsOf(sent), unfinished);
    assert RequestsOf(sent) + [] == RequestsOf(sent);
  }

  /** What becomes of a message when its turn comes. */
  ghost function FateIn(q: Queue<AckMessage>, m: AckMessage, t: Moment): Fate
    requires m in q
  {
    if m.receiver !in t.connected then NoConnection
    else if q[m].ntime > MAX_RETRY then GivenUp
    else if m !in t.writable then WriteFailed
    else Sent(RequestOf(m))
  }

  /** Taking a message off and settling its fate is a turn of the tick; `shadow` is what the
      index holds for its key. */
  lemma TurnIs(b: Book, m: AckMessage, t: Moment, shadow: set<AckMessage>)
    requires m in b.queue && (KeyOf(m) in b.index ==> m.receiver in t.connected)
    requires shadow == if KeyOf(m) in b.index then {b.index[KeyOf(m)]} else {}
    ensures var fate, c := FateIn(b.queue, m, t), TurnOn(b, m, t);
            && c.queue == (if fate.Sent? then (b.queue - {m})[m := Resent(b.queue[m], t.now)]
                           else if fate.GivenUp? then b.queue - {m} - shadow else b.queue - {m})
            && c.index == (if fate.Sent? then b.index[KeyOf(m) := m]
                           else if fate.WriteFailed? then b.index else b.index - {KeyOf(m)})
            && (fate.Sent? <==> Retried(b.queue, m, t.Reachable()))
            && (c.queue == TickOn(b.queue, {m}, t.now, t.Reachable()) <==> Robbed(b, m, t) == {})
  {
    OneTurn(b.queue, m, t.now, t.Reachable());
    RobbedIsShadow(b, m, t);
    if x :| x in Robbed(b, m, t) {
      assert x in TickOn(b.queue, {m}, t.now, t.Reachable());
    }
  }

  class AckMessageManage {
    const msgheap: MinHeap
    const conManage: ConnectManage

    constructor ()
      ensures Valid() && Queued() == map[] && conManage.cons == map[]
      ensures fresh(msgheap) && fresh(conManage)
    {
      msgheap := new MinHeap();
      conManage := new ConnectManage();
    }

    /** Entry `id` of the context of `uid`'s connection: a message with that key, which is
        either out of the queue (index -1) or in the very slot it names. */
    ghost predicate SoundEntry(uid: uint32, id: uint64)
      reads *
      requires uid in conManage.cons && id in conManage.cons[uid].ctx.values
    {
      var m := conManage.cons[uid].ctx.values[id];
      && m.receiver == uid && m.msgid == id
      && (m.index == -1 || m in msgheap.Items())
    }

    ghost predicate SoundContexts()
      reads *
    {
      && (forall u, v :: u in conManage.cons && v in conManage.cons && u != v
            ==> conManage.cons[u].ctx != conManage.cons[v].ctx)
      && (forall uid, id :: uid in conManage.cons && id in conManage.cons[uid].ctx.values ==> SoundEntry(uid, id))
    }

    ghost predicate Valid()
      reads *
    {
      msgheap.Valid() && SoundContexts()
    }

    /** The abstract queue. */
    ghost function Queued(): (q: Queue<AckMessage>)
      reads this, msgheap, msgheap.items
    {
      map m | m in msgheap.items :: Stamp(m.timeout, m.ntime as int)
    }

    ghost function Contexts(): set<Contex>
      reads this, conManage, conManage.cons.Values
    {
      set uid | uid in conManage.cons :: conManage.cons[uid].ctx
    }

    /** The context of `uid`'s current connection, if there is one. */
    ghost function ContextOf(uid: uint32): set<Contex>
      reads this, conManage, conManage.cons.Values
    {
      if uid in conManage.cons then {conManage.cons[uid].ctx} else {}
    }

    /** The acknowledgement index has an entry for this key. */
    ghost predicate Known(receiver: uint32, msgid: uint64)
      reads this, conManage, conManage.cons.Values, ContextOf(receiver)
    {
      receiver in conManage.cons && msgid in conManage.cons[receiver].ctx.values
    }

    /** What the context of `uid`'s connection holds. */
    ghost function Entries(uid: uint32): map<uint64, AckMessage>
      reads this, conManage, conManage.cons.Values, ContextOf(uid)
    {
      if uid in conManage.cons then conManage.cons[uid].ctx.values else map[]
    }

    /** What the contexts of the current connections hold, by user. */
    ghost function Tables(): map<uint32, map<uint64, AckMessage>>
      reads *
    {
      map uid | uid in conManage.cons :: conManage.cons[uid].ctx.values
    }

    /** The message each key stands for in the contexts of the current connections. */
    ghost function Index(): map<Key, AckMessage>
      reads *
    {
      Flat(Tables())
    }

    ghost function Books(): Book
      reads *
    {
      Book(Queued(), Index())
    }

    /** Contexts other than `receiver`'s, and the slots claimed by messages outside the queue,
        are what they were. */
    twostate predicate RestKept(receiver: uint32, message: AckMessage)
      reads *
    {
      && conManage.cons == old(conManage.cons) && receiver in conManage.cons
      && (forall uid :: uid in conManage.cons && uid != receiver ==> unchanged(conManage.cons[uid].ctx))
      && (forall uid, id :: uid in old(conManage.cons) && id in old(conManage.cons[uid].ctx.values) ==>
            var m := old(conManage.cons[uid].ctx.values[id]);
            m == message || m in old(msgheap.Items()) || m.index == old(m.index))
      && (forall m :: m in old(msgheap.Items()) ==> m.timeout == old(m.timeout) && m.ntime == old(m.ntime))
    }

    // ---------- Push ----------

    method Push(message: AckMessage, now: int)
      requires Valid() && message !in msgheap.items
      modifies message, msgheap, msgheap.items`index, ContextOf(message.receiver)
      ensures Valid()
      ensures message.timeout == now + ACK_WAIT && message.ntime as int == (old(message.ntime) as int + 1) % 0x100
      ensures message.receiver !in conManage.cons ==> Queued() == old(Queued()) && message.index == 0
      ensures message.receiver in conManage.cons ==>
                var ctx := conManage.cons[message.receiver].ctx;
                && Queued() == old(Queued())[message := Stamp(message.timeout, message.ntime as int)]
                && ctx.values == old(ctx.values)[message.msgid := message]
    {
      message.ntime := ((message.ntime as int + 1) % 0x100) as byte;
      message.timeout := now + 5;
      message.index := 0;
      var con, ok := conManage.GetConnect(message.receiver);
      if !ok {
        return;
      }
      Enqueue(con, message);
      PushOutcome(message);
    }

    /** The last two statements of `Push`. */
    method Enqueue(con: Connect, message: AckMessage)
      requires msgheap.Valid() && message !in msgheap.items
      modifies message`index, msgheap, msgheap.items`index, con.ctx
      ensures msgheap.Valid() && msgheap.Items() == old(msgheap.Items()) + {message}
      ensures con.ctx.values == old(con.ctx.values)[message.msgid := message]
    {
      con.ctx.Set(message.msgid, message);
      msgheap.HeapPush(message);
    }

    twostate lemma PushOutcome(message: AckMessage)
      requires old(SoundContexts()) && message !in old(msgheap.items) && RestKept(message.receiver, message)
      requires var ctx := conManage.cons[message.receiver].ctx; ctx.values == old(ctx.values)[message.msgid := message]
      requires msgheap.Items() == old(msgheap.Items()) + {message}
      ensures SoundContexts()
      ensures Queued() == old(Queued())[message := Stamp(message.timeout, message.ntime as int)]
    {
      forall uid, id | uid in conManage.cons && id in conManage.cons[uid].ctx.values ensures SoundEntry(uid, id) {
        if uid != message.receiver || id != message.msgid {
          assert old(SoundEntry(uid, id));
        }
      }
      assert forall m :: m in msgheap.items <==> m in msgheap.Items();
      assert forall m :: m in old(msgheap.items) <==> m in old(msgheap.Items());
    }

    // ---------- Delete ----------

    method Delete(msgid: uint64, receiver: uint32)
      requires Valid()
      modifies msgheap, msgheap.items`index, ContextOf(receiver)
      ensures Valid()
      ensures !old(Known(receiver, msgid)) ==>
                Queued() == old(Queued()) && forall c :: c in ContextOf(receiver) ==> c.values == old(c.values)
      ensures old(Known(receiver, msgid)) ==>
                var ctx := conManage.cons[receiver].ctx;
                && Queued() == old(Queued()) - {old(ctx.values[msgid])}
                && ctx.values == old(ctx.values) - {msgid}
    {
      var con, ok := conManage.GetConnect(receiver);
      if !ok {
        return;
      }
      var value;
      value, ok := con.ctx.Get(msgid);
      if ok {
        assert SoundEntry(receiver, msgid);
        Dequeue(con, value);
        DeleteOutcome(value);
      }
    }

    /** The statements of `Delete` that run when the message is found. */
    method Dequeue(con: Connect, m: AckMessage)
      requires msgheap.Valid() && (m.index == -1 || m in msgheap.Items())
      modifies msgheap, msgheap.items`index, con.ctx
      ensures msgheap.Valid() && msgheap.Items() == old(msgheap.Items()) - {m} && m.index == -1
      ensures con.ctx.values == old(con.ctx.values) - {m.msgid}
    {
      con.ctx.Delete(m.msgid);
      msgheap.Delete(m);
    }

    twostate lemma DeleteOutcome(message: AckMessage)
      requires old(SoundContexts()) && RestKept(message.receiver, message)
      requires var ctx := conManage.cons[message.receiver].ctx; ctx.values == old(ctx.values) - {message.msgid}
      requires msgheap.Items() == old(msgheap.Items()) - {message} && message.index == -1
      ensures SoundContexts()
      ensures Queued() == old(Queued()) - {message}
    {
      forall uid, id | uid in conManage.cons && id in conManage.cons[uid].ctx.values ensures SoundEntry(uid, id) {
        assert old(SoundEntry(uid, id));
      }
      assert forall m :: m in msgheap.items <==> m in msgheap.Items();
      assert forall m :: m in old(msgheap.items) <==> m in old(msgheap.Items());
    }

    // ---------- one turn of the tick's loop ----------

    /** The earliest message leaves the queue. */
    method Pop() returns (message: AckMessage)
      requires Valid() && msgheap.items != []
      modifies msgheap, msgheap.items`index
      ensures Valid() && message == old(msgheap.items[0]) && message.index == -1
      ensures Queued() == old(Queued()) - {message} && Index() == old(Index())
      ensures message in old(Queued()) && old(Queued())[message] == Stamp(message.timeout, message.ntime as int)
      ensures forall m :: m in old(Queued()) ==> message.timeout <= old(Queued())[m].timeout
      ensures forall k :: 0 <= k < |msgheap.items| ==> msgheap.items[k] in old(msgheap.items)
    {
      message := msgheap.HeapPop();
      assert forall k :: 0 <= k < |msgheap.items| ==> msgheap.items[k] in msgheap.Items();
      assert forall m :: m in old(msgheap.items) <==> m in old(msgheap.Items());
      PopOutcome(message);
    }

    twostate lemma PopOutcome(message: AckMessage)
      requires old(SoundContexts()) && conManage.cons == old(conManage.cons)
      requires forall uid :: uid in conManage.cons ==> unchanged(conManage.cons[uid].ctx)
      requires forall uid, id :: uid in old(conManage.cons) && id in old(conManage.cons[uid].ctx.values) ==>
                 var m := old(conManage.cons[uid].ctx.values[id]);
                 m in old(msgheap.Items()) || m.index == old(m.index)
      requires forall m :: m in old(msgheap.Items()) ==> m.timeout == old(m.timeout) && m.ntime == old(m.ntime)
      requires msgheap.Items() == old(msgheap.Items()) - {message} && message.index == -1
      ensures SoundContexts()
      ensures Queued() == old(Queued()) - {message} && Index() == old(Index())
    {
      assert Tables() == old(Tables());
      forall uid, id | uid in conManage.cons && id in conManage.cons[uid].ctx.values ensures SoundEntry(uid, id) {
        assert old(SoundEntry(uid, id));
      }
      assert forall m :: m in msgheap.items <==> m in msgheap.Items();
      assert forall m :: m in old(msgheap.items) <==> m in old(msgheap.Items());
    }

    /** A tick at time `now`, with the present connections. */
    ghost function At(now: int, writable: set<AckMessage>): Moment
      reads this, conManage
    {
      Moment(now, conManage.cons.Keys, writable)
    }

    /** Lines 152 to 169 of the tick's loop, for the message just popped. */
    method Retry(message: AckMessage, now: int, writable: set<AckMessage>) returns (fate: Fate)
      requires Valid() && message !in msgheap.items
      modifies message, msgheap, msgheap.items`index, ContextOf(message.receiver)
      ensures Valid() && fate == old(FateOf(message, writable))
      ensures Queued() == if fate.Sent? then old(Queued())[message := Resent(old(Stamp(message.timeout, message.ntime as int)), now)]
                          else if fate.GivenUp? then old(Queued() - Shadow(message.receiver, message.msgid)) else old(Queued())
      ensures Entries(message.receiver) == if fate.Sent? then old(Entries(message.receiver))[message.msgid := message]
                                           else if fate.WriteFailed? then old(Entries(message.receiver))
                                           else old(Entries(message.receiver)) - {message.msgid}
    {
      var con, ok := conManage.GetConnect(message.receiver);
      if !ok || message.ntime > 3 {
        fate := if ok then GivenUp else NoConnection;
        Delete(message.msgid, message.receiver);
        return;
      }
      var request := Request(message.gropOrOne as uint16, (|message.body| % 0x1_0000_0000) as uint32, 0, message.body);
      if message !in writable {
        fate := WriteFailed;
        return;
      }
      Push(message, now);
      fate := Sent(request);
    }

    /** The message the acknowledgement index holds for this key, if any. */
    ghost function Shadow(receiver: uint32, msgid: uint64): set<AckMessage>
      reads this, conManage, conManage.cons.Values, ContextOf(receiver)
    {
      if Known(receiver, msgid) then {conManage.cons[receiver].ctx.values[msgid]} else {}
    }

    /** One turn of the loop: the earliest message is taken off and dealt with. It is stamped
        anew or leaves, and nothing else happens to the queue exactly if it robs none. */
    method RetryHead(now: int, writable: set<AckMessage>) returns (message: AckMessage, fate: Fate)
      requires Valid() && msgheap.items != [] && msgheap.items[0].timeout < now
      modifies msgheap, msgheap.items[0], msgheap.items`index, ContextOf(msgheap.items[0].receiver)
      ensures Valid() && message == old(msgheap.items[0])
      ensures fate.Sent? ==> fate.request == RequestOf(message)
      ensures var b, t := old(Books()), At(now, writable);
              && Foremost(b.queue, message, now) && fate == FateIn(b.queue, message, t)
              && (fate.Sent? <==> Retried(b.queue, message, t.Reachable()))
              && Books() == TurnOn(b, message, t)
              && (Queued() == TickOn(b.queue, {message}, now, t.Reachable()) <==> Robbed(b, message, t) == {})
    {
      ghost var b, t := Books(), At(now, writable);
      message := Pop();
      IndexIsConnected(message);
      ShadowIsEntry(message.receiver, message.msgid);
      ghost var shadow := Shadow(message.receiver, message.msgid);
      fate := RetryPopped(message, now, writable);
      TurnIs(b, message, t, shadow);
      assert fate == FateIn(b.queue, message, t);
    }

    /** `Retry` seen on queue and index. */
    method RetryPopped(message: AckMessage, now: int, writable: set<AckMessage>) returns (fate: Fate)
      requires Valid() && message !in msgheap.items
      modifies message, msgheap, msgheap.items`index, ContextOf(message.receiver)
      ensures Valid() && fate == old(FateOf(message, writable))
      ensures Queued() == if fate.Sent? then old(Queued())[message := Resent(old(Stamp(message.timeout, message.ntime as int)), now)]
                          else if fate.GivenUp? then old(Queued() - Shadow(message.receiver, message.msgid)) else old(Queued())
      ensures Index() == if fate.Sent? then old(Index())[KeyOf(message) := message]
                         else if fate.WriteFailed? then old(Index()) else old(Index()) - {KeyOf(message)}
    {
      fate := Retry(message, now, writable);
      IndexFollows(message);
    }

    lemma ShadowIsEntry(receiver: uint32, msgid: uint64)
      ensures Shadow(receiver, msgid) == var index := Index(); if (receiver, msgid) in index then {index[(receiver, msgid)]} else {}
    {
    }

    twostate lemma IndexFollows(message: AckMessage)
      requires conManage.cons == old(conManage.cons)
      requires forall uid :: uid in conManage.cons && uid != message.receiver ==> unchanged(conManage.cons[uid].ctx)
      ensures var r, id := message.receiver, message.msgid;
              && (Entries(r) == old(Entries(r)) ==> Index() == old(Index()))
              && (Entries(r) == old(Entries(r)) - {id} ==> Index() == old(Index()) - {KeyOf(message)})
              && (r in conManage.cons && Entries(r) == old(Entries(r))[id := message] ==> Index() == old(Index())[KeyOf(message) := message])
    {
      var r := message.receiver;
      if r in conManage.cons {
        assert Tables() == old(Tables())[r := Entries(r)] && old(Tables())[r] == old(Entries(r));
        FlatSet(old(Tables()), r, message.msgid, message);
        FlatDrop(old(Tables()), r, message.msgid);
        assert old(Tables())[r := old(Tables())[r]] == old(Tables());
      } else {
        assert Tables() == old(Tables());
        FlatAt(old(Tables()), KeyOf(message));
        assert old(Index()) - {KeyOf(message)} == old(Index());
      }
    }

    lemma IndexIsConnected(message: AckMessage)
      ensures KeyOf(message) in Index() ==> message.receiver in conManage.cons
    {
    }

    ghost function FateOf(m: AckMessage, writable: set<AckMessage>): Fate
      reads this, conManage, m
    {
      if m.receiver !in conManage.cons then NoConnection
      else if m.ntime as int > MAX_RETRY then GivenUp
      else if m !in writable then WriteFailed
      else Sent(RequestOf(m))
    }

    // ---------- tick ----------

    /** A tick of the event loop: at most as many turns as messages were queued when it fired, in
        the order `taken`. `panicked`: slot 0 of an empty heap was read. The queue is that of the
        tick on maps but for the messages stolen; if none was, nothing panics either. */
    method Tick(now: int, writable: set<AckMessage>)
      returns (sent: seq<AckMessage>, requests: seq<Request>, panicked: bool, ghost taken: seq<AckMessage>)
      requires Valid()
      modifies msgheap, Queued().Keys, Contexts()
      ensures Valid() && requests == RequestsOf(sent)
      ensures |requests| == |sent| && forall i :: 0 <= i < |sent| ==>
                && requests[i].ty as int == sent[i].gropOrOne as int && requests[i].flag == 0 && requests[i].body == sent[i].body
                && (|sent[i].body| < 0x1_0000_0000 ==> requests[i].bodyLen as int == |sent[i].body|)
      ensures var b, t := old(Books()), At(now, writable);
              && SoundIndex(b.index) && Ended(b, taken, t) && Books() == TurnsOn(b, taken, t)
              && TickOutcome(b, taken, t, Queued(), panicked) && (TiesApart(b, t) ==> Foretold(b, t, Queued(), panicked))
              && sent == Kept(b.queue, taken, t.Reachable())
              && RowByRow(b.queue, t, Stolen(b, taken, t), sent, Queued()) && panicked == Starved(b, taken, t)
    {
      IndexIsSound();
      ghost var b, t := Books(), At(now, writable);
      sent, requests, panicked, taken := TickTurns(now, writable);
      TickMeans(b, taken, t);
      TickIsForetold(b, taken, t);
    }

    /** The same, told by the turns taken and row by row. */
    method TickTurns(now: int, writable: set<AckMessage>)
      returns (sent: seq<AckMessage>, requests: seq<Request>, panicked: bool, ghost taken: seq<AckMessage>)
      requires Valid()
      modifies msgheap, Queued().Keys, Contexts()
      ensures Valid() && requests == RequestsOf(sent)
      ensures |requests| == |sent| && forall i :: 0 <= i < |sent| ==>
                && requests[i].ty as int == sent[i].gropOrOne as int && requests[i].flag == 0 && requests[i].body == sent[i].body
                && (|sent[i].body| < 0x1_0000_0000 ==> requests[i].bodyLen as int == |sent[i].body|)
      ensures var b, t := old(Books()), At(now, writable);
              && Ended(b, taken, t) && Books() == TurnsOn(b, taken, t) && panicked == Starved(b, taken, t)
              && sent == Kept(b.queue, taken, t.Reachable())
              && RowByRow(b.queue, t, Stolen(b, taken, t), sent, Queued())
    {
      QueueSize();
      ghost var b, t := Books(), At(now, writable);
      sent, requests, panicked, taken := Turns(|msgheap.items|, now, writable);
      TickRows(b, taken, t);
      RequestsCarry(sent);
    }

    /** The loop of a tick. */
    method Turns(n: nat, now: int, writable: set<AckMessage>)
      returns (sent: seq<AckMessage>, requests: seq<Request>, panicked: bool, ghost taken: seq<AckMessage>)
      requires Valid() && n == |Queued()|
      modifies msgheap, Queued().Keys, Contexts()
      ensures Valid() && requests == RequestsOf(sent)
      ensures var b, t := old(Books()), At(now, writable);
              && Ended(b, taken, t) && Books() == TurnsOn(b, taken, t)
              && sent == Kept(b.queue, taken, t.Reachable())
              && panicked == Starved(b, taken, t)
    {
      ghost var b, t := Books(), At(now, writable);
      sent, requests, taken := [], [], [];
      panicked := false;
      var i := 0;
      while i < n
        invariant 0 <= i == |taken| <= n && !panicked && Valid() && conManage.cons == old(conManage.cons)
        invariant Legal(b, taken, t) && Books() == TurnsOn(b, taken, t)
        invariant requests == RequestsOf(sent) && sent == Kept(b.queue, taken, t.Reachable())
      {
        if msgheap.items == [] {
          panicked := true;
          break;
        }
        if msgheap.items[0].timeout >= now {
          assert msgheap.items[0] in Queued();
          NothingDue(now);
          break;
        }
        var message, fate := Turn(b, taken, now, writable);
        taken := taken + [message];
        if fate.Sent? {
          sent, requests := sent + [message], requests + [fate.request];
        }
        i := i + 1;
      }
    }

    lemma IndexIsSound()
      requires Valid()
      ensures SoundIndex(Index())
    {
      forall key | key in Index() ensures KeyOf(Index()[key]) == key {
        assert SoundEntry(key.0, key.1);
      }
    }

    /** `RetryHead` seen from the start of the tick, when queue and index were `b`. */
    method Turn(ghost b: Book, ghost taken: seq<AckMessage>, now: int, writable: set<AckMessage>)
      returns (message: AckMessage, fate: Fate)
      requires Valid() && Legal(b, taken, At(now, writable)) && Books() == TurnsOn(b, taken, At(now, writable))
      requires msgheap.items != [] && msgheap.items[0].timeout < now
      modifies msgheap, b.queue.Keys, Contexts()
      ensures Valid() && (fate.Sent? ==> fate.request == RequestOf(message))
      ensures var t := At(now, writable);
              && Legal(b, taken + [message], t) && Books() == TurnsOn(b, taken + [message], t)
              && Kept(b.queue, taken + [message], t.Reachable())
                 == Kept(b.queue, taken, t.Reachable()) + if fate.Sent? then [message] else []
    {
      StolenAreQueued(b, taken, At(now, writable));
      assert forall k :: 0 <= k < |msgheap.items| ==> msgheap.items[k] in Queued();
      message, fate := RetryHead(now, writable);
      TurnExtends(b, taken, message, At(now, writable));
    }

    lemma NothingDue(now: int)
      requires msgheap.Valid() && msgheap.items != [] && msgheap.items[0].timeout >= now
      ensures DueAt(Queued(), now) == {}
    {
      forall m | m in msgheap.items ensures m.timeout >= now {
        var k :| 0 <= k < |msgheap.items| && msgheap.items[k] == m;
        RootIsEarliest(msgheap.Times(), k);
      }
    }

    lemma OnlyQueued(s: set<AckMessage>)
      requires Queued().Keys <= s
      ensures forall k :: 0 <= k < |msgheap.items| ==> msgheap.items[k] in s
    {
      assert forall k :: 0 <= k < |msgheap.items| ==> msgheap.items[k] in Queued();
    }

    lemma QueueSize()
      requires msgheap.Valid()
      ensures |Queued()| == |msgheap.items|
    {
      DistinctCardinality(msgheap.items);
      assert Queued().Keys == set m | m in msgheap.items;
    }

    // ---------- the other arms of the event loop ----------

    /** A handler's message arrives: the `Push` step of a run. Keys stay distinct if no queued
        message has the new one's. */
    method OnPush(message: AckMessage, now: int)
      requires Valid() && message !in msgheap.items && message.ntime == 0
      modifies message, msgheap, msgheap.items`index, ContextOf(message.receiver)
      ensures Valid()
      ensures Queued() == Next(old(Queued()), Event.Push(now, message, message.receiver in conManage.cons))
      ensures Index() == if message.receiver in conManage.cons then old(Index())[KeyOf(message) := message] else old(Index())
      ensures DistinctKeys(old(Queued()).Keys + {message}) ==> DistinctKeys(Queued().Keys)
    {
      PushIsNext(Queued(), message, now, message.receiver in conManage.cons);
      PushIndexed(message, now);
    }

    /** `Push` seen on queue and index. */
    method PushIndexed(message: AckMessage, now: int)
      requires Valid() && message !in msgheap.items
      modifies message, msgheap, msgheap.items`index, ContextOf(message.receiver)
      ensures Valid()
      ensures message.timeout == now + ACK_WAIT && message.ntime as int == (old(message.ntime) as int + 1) % 0x100
      ensures message.receiver in conManage.cons ==>
                && Queued() == old(Queued())[message := Stamp(message.timeout, message.ntime as int)]
                && Index() == old(Index())[KeyOf(message) := message]
      ensures message.receiver !in conManage.cons ==> Queued() == old(Queued()) && Index() == old(Index())
    {
      Push(message, now);
      IndexFollows(message);
    }

    /** An acknowledgement arrives: the `Ack` step of a run, for the one message the key stands
        for; without such a message nothing leaves the queue. */
    method OnDelete(msgid: uint64, receiver: uint32, now: int)
      requires Valid()
      modifies msgheap, msgheap.items`index, ContextOf(receiver)
      ensures Valid()
      ensures forall m :: m in old(Shadow(receiver, msgid)) ==>
                m.receiver == receiver && m.msgid == msgid && Queued() == Next(old(Queued()), Event.Ack(now, m))
      ensures old(Shadow(receiver, msgid)) == {} ==> Queued() == old(Queued())
      ensures Index() == old(Index()) - {(receiver, msgid)}
    {
      assert Known(receiver, msgid) ==> SoundEntry(receiver, msgid);
      Delete(msgid, receiver);
      EntryGone((receiver, msgid));
    }

    twostate lemma EntryGone(key: Key)
      requires conManage.cons == old(conManage.cons)
      requires forall uid :: uid in conManage.cons && uid != key.0 ==> unchanged(conManage.cons[uid].ctx)
      requires Entries(key.0) == old(Entries(key.0)) - {key.1}
      ensures Index() == old(Index()) - {key}
    {
      if key.0 in conManage.cons {
        assert Tables() == old(Tables())[key.0 := Entries(key.0)] && old(Tables())[key.0] == old(Entries(key.0));
        FlatDrop(old(Tables()), key.0, key.1);
      } else {
        assert Tables() == old(Tables());
        FlatAt(old(Tables()), key);
      }
    }

    // ---------- the environment ----------

    /** A client authenticates: `con` becomes the connection of `uid`. A connection starts with
        an empty context, and authenticates as one user. */
    method OnConnect(uid: uint32, con: Connect)
      requires Valid()
      requires (con.ctx !in Contexts() && con.ctx.values == map[]) || (uid in conManage.cons && conManage.cons[uid] == con)
      modifies conManage
      ensures Valid() && Queued() == old(Queued()) && conManage.cons == old(conManage.cons)[uid := con]
      ensures Tables() == old(Tables())[uid := con.ctx.values]
    {
      conManage.AddConnect(uid, con);
      forall u, id | u in conManage.cons && id in conManage.cons[u].ctx.values ensures SoundEntry(u, id) {
        assert u in old(conManage.cons) && old(SoundEntry(u, id));
      }
    }

    method OnDisconnect(uid: uint32)
      requires Valid()
      modifies conManage
      ensures Valid() && Queued() == old(Queued()) && conManage.cons == old(conManage.cons) - {uid}
      ensures Tables() == old(Tables()) - {uid}
    {
      conManage.DeleteConnect(uid);
      forall u, id | u in conManage.cons && id in conManage.cons[u].ctx.values ensures SoundEntry(u, id) {
        assert old(SoundEntry(u, id));
      }
    }
  }

  /** An ack takes back exactly the push it answers. */
  method AckUndoesPush(m: AckMessageManage, message: AckMessage, now: int)
    requires m.Valid() && message !in m.msgheap.items
    modifies message, m.msgheap, m.msgheap.items`index, m.ContextOf(message.receiver)
    ensures m.Valid() && m.Queued() == old(m.Queued())
  {
    m.Push(message, now);
    assert forall k :: 0 <= k < |m.msgheap.items| ==> m.msgheap.items[k] in m.Queued();
    m.Delete(message.msgid, message.receiver);
  }

  /** A retried message's connection goes between the write and the push: the message leaves the
      queue for good, claims slot 0 it does not have, and still everything stays consistent. */
  method RetryInterrupted(m: AckMessageManage, message: AckMessage, now: int)
    requires m.Valid() && message !in m.msgheap.items
    modifies message, m.conManage, m.msgheap, m.msgheap.items`index
    ensures m.Valid() && m.Queued() == old(m.Queued()) && message.index == 0
  {
    m.OnDisconnect(message.receiver);
    m.Push(message, now);
  }

  /** A message on its own, due for its first, second or third retry, is sent again. */
  method LoneTick(m: AckMessageManage, a: AckMessage, now: int)
    requires m.Valid() && m.Queued().Keys == {a} && a.receiver in m.conManage.cons
    requires m.Queued()[a].timeout < now && m.Queued()[a].ntime <= MAX_RETRY
    modifies m.msgheap, a, m.Contexts()
    ensures m.Valid() && m.Queued() == map[a := Resent(old(m.Queued())[a], now)]
  {
    ghost var b, t := m.Books(), m.At(now, {a});
    ghost var taken;
    var sent, requests, panicked;
    sent, requests, panicked, taken := m.Tick(now, {a});
    LoneRetry(b, taken, t, m.Queued(), panicked, a);
  }

  method ThreeRetries(m: AckMessageManage, a: AckMessage)
    requires m.Valid() && a.receiver in m.conManage.cons && m.Queued().Keys == {a} && m.Queued()[a] == Stamp(5, 1)
    modifies m.msgheap, a, m.Contexts()
    ensures m.Valid() && m.Queued().Keys == {a} && m.Queued()[a] == Stamp(23, 4)
  {
    LoneTick(m, a, 6);
    LoneTick(m, a, 12);
    LoneTick(m, a, 18);
  }

  /** A manager with one connection and nothing queued. */
  method OneConnected(uid: uint32) returns (m: AckMessageManage)
    ensures fresh(m) && fresh(m.msgheap) && fresh(m.conManage) && fresh(m.Contexts())
    ensures m.Valid() && uid in m.conManage.cons && m.Queued() == map[] && m.msgheap.items == []
  {
    m := new AckMessageManage();
    var con := new Connect();
    m.OnConnect(uid, con);
    assert m.conManage.cons == map[uid := con];
    m.QueueSize();
  }

  /** A new message for a connected user, nothing or only `queued` being queued before. */
  method PushAnother(m: AckMessageManage, b: AckMessage, now: int, ghost queued: set<AckMessage>)
    requires m.Valid() && b.ntime == 0 && b.receiver in m.conManage.cons
    requires m.Queued().Keys <= queued && b !in queued
    modifies m.msgheap, queued, b, m.Contexts()
    ensures m.Valid() && m.Queued().Keys == old(m.Queued()).Keys + {b} && m.Queued()[b] == Stamp(now + ACK_WAIT, 1)
    ensures forall k :: k in old(m.Queued()) ==> m.Queued()[k] == old(m.Queued())[k]
    ensures KeyOf(b) in m.Index() && m.Index()[KeyOf(b)] == b
  {
    PushIsNext(m.Queued(), b, now, true);
    m.OnlyQueued(queued);
    assert forall c :: c in m.ContextOf(b.receiver) ==> c in m.Contexts();
    m.OnPush(b, now);
  }

  method PushAndRetry(m: AckMessageManage, a: AckMessage)
    requires m.Valid() && m.Queued() == map[] && a.ntime == 0 && a.receiver in m.conManage.cons
    modifies m.msgheap, a, m.Contexts()
    ensures m.Valid() && m.Queued().Keys == {a} && m.Queued()[a] == Stamp(23, 4)
  {
    PushAnother(m, a, 0, {});
    ThreeRetries(m, a);
  }

  method SecondPush(m: AckMessageManage, a: AckMessage, b: AckMessage)
    requires m.Valid() && a != b && b.ntime == 0 && KeyOf(a) == KeyOf(b) && b.receiver in m.conManage.cons
    requires m.Queued().Keys == {a} && m.Queued()[a] == Stamp(23, 4)
    modifies m.msgheap, a, b, m.Contexts()
    ensures m.Valid() && m.Queued().Keys == {a, b} && m.Queued()[a] == Stamp(23, 4) && m.Queued()[b] == Stamp(25, 1)
    ensures KeyOf(b) in m.Index() && m.Index()[KeyOf(b)] == b
  {
    assert {a} + {b} == {a, b};
    PushAnother(m, b, 20, {a});
  }

  /** The queue of `TwoStarve` at second 24. */
  method StarvingTick(m: AckMessageManage, a: AckMessage, b: AckMessage) returns (panicked: bool)
    requires m.Valid() && a != b && KeyOf(a) == KeyOf(b) && a.receiver in m.conManage.cons
    requires m.Queued().Keys == {a, b} && m.Queued()[a] == Stamp(23, 4) && m.Queued()[b] == Stamp(25, 1)
    requires KeyOf(b) in m.Index() && m.Index()[KeyOf(b)] == b
    modifies m.msgheap, a, b, m.Contexts()
    ensures panicked
  {
    ghost var book, t := m.Books(), m.At(24, {});
    var sent, requests;
    ghost var taken;
    sent, requests, panicked, taken := m.Tick(24, {});
    TwoStarve(book, taken, t, a, b);
  }

  /** Two messages for one user under one id make a tick read slot 0 of an empty heap: the first,
      sent four times, is given up at second 24, and takes the second, pushed at 20, along. */
  method NamesakesPanic(m: AckMessageManage, a: AckMessage, b: AckMessage) returns (panicked: bool)
    requires m.Valid() && m.Queued() == map[] && a != b && a.ntime == 0 && b.ntime == 0
    requires KeyOf(a) == KeyOf(b) && a.receiver in m.conManage.cons
    modifies m.msgheap, a, b, m.Contexts()
    ensures panicked
  {
    PushAndRetry(m, a);
    SecondPush(m, a, b);
    panicked := StarvingTick(m, a, b);
  }

  /** Such a manager and such messages there are: nothing was ever queued, and one user connected. */
  method NamesakesFromEmpty(first: bytes, second: bytes, msgid: uint64, uid: uint32) returns (panicked: bool)
    ensures panicked
  {
    var m := OneConnected(uid);
    var a := new AckMessage(first, msgid, 2, uid);
    var b := new AckMessage(second, msgid, 3, uid);
    panicked := NamesakesPanic(m, a, b);
  }
}
