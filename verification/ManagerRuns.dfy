/** Whole runs of the retry manager: whatever arrives at its event loop, its queue is that of a run
    of the map steps, and what goes out obeys the bounds on runs. */
module ManagerRuns {
  import opened Words
  import opened Collections
  import opened RetrySpec
  import opened TickSpec
  import opened MinHeaps
  import opened Connections
  import opened AckManage
  import opened Thefts

  type Steps = seq<Event<AckMessage>>

  // ---------- appending to a run ----------

  /** What one arrival comes to: at most one step that puts messages on the wire, then removals. */
  ghost predicate OneArrival(more: Steps) {
    forall i :: 0 < i < |more| ==> more[i].Ack?
  }

  lemma {:induction false} RunAppended(q: Queue<AckMessage>, es: Steps, more: Steps)
    ensures Run(q, es + more) == Run(Run(q, es), more)
  {
    if more == [] {
      assert es + more == es;
    } else {
      var last := |more| - 1;
      RunAppended(q, es, more[..last]);
      assert (es + more)[..|es + more| - 1] == es + more[..last];
    }
  }

  lemma {:induction false} SendsAppended(es: Steps, more: Steps, k: AckMessage)
    requires OneArrival(more)
    ensures Sends(es + more, k) == Sends(es, k) + if more != [] && k in Outgoing(Run(map[], es), more[0]) then [more[0].now] else []
  {
    if more == [] {
      assert es + more == es;
    } else {
      var last := |more| - 1;
      SendsAppended(es, more[..last], k);
      assert (es + more)[..|es + more| - 1] == es + more[..last] && (es + more)[|es + more| - 1] == more[last];
      RunAppended(map[], es, more[..last]);
      if last == 0 {
        assert es + more[..last] == es;
      }
    }
  }

  /** All messages pushed are among `handed`. */
  ghost predicate PushedFrom(es: Steps, handed: set<AckMessage>) {
    forall i :: 0 <= i < |es| && es[i].Push? ==> es[i].k in handed
  }

  /** The only message pushed, if any, is new. */
  ghost predicate PushesOnly(more: Steps, new': set<AckMessage>) {
    && OneArrival(more) && (more != [] && more[0].Push? ==> more[0].k in new')
  }

  lemma PushedOnceAppended(es: Steps, more: Steps, handed: set<AckMessage>, new': set<AckMessage>)
    requires PushedOnce(es) && PushedFrom(es, handed) && PushesOnly(more, new') && handed !! new'
    ensures PushedOnce(es + more) && PushedFrom(es + more, handed + new')
  {
    forall i | 0 <= i < |es + more| && (es + more)[i].Push?
      ensures if i < |es| then (es + more)[i].k in handed else i == |es| && (es + more)[i].k in new'
    {
    }
  }

  // ---------- what goes out ----------

  /** The times at which `k` went out. */
  function Times(log: seq<(int, AckMessage)>, k: AckMessage): seq<int> {
    if log == [] then [] else
      Times(log[..|log| - 1], k) + if log[|log| - 1].1 == k then [log[|log| - 1].0] else []
  }

  function Stamped(at: int, sent: seq<AckMessage>): seq<(int, AckMessage)> {
    seq(|sent|, i requires 0 <= i < |sent| => (at, sent[i]))
  }

  lemma {:induction false} TimesAppended(log: seq<(int, AckMessage)>, at: int, sent: seq<AckMessage>, k: AckMessage)
    requires Distinct(sent)
    ensures Times(log + Stamped(at, sent), k) == Times(log, k) + if k in sent then [at] else []
  {
    if sent == [] {
      assert log + Stamped(at, sent) == log;
    } else {
      var last := |sent| - 1;
      var before := sent[..last];
      TimesAppended(log, at, before, k);
      var longer := log + Stamped(at, sent);
      assert longer[..|longer| - 1] == log + Stamped(at, before) && longer[|longer| - 1] == (at, sent[last]);
      SplitAt(sent, last, k);
    }
  }

  /** An arrival at time `at` makes of the queue `q` the queue `r` by the steps `more`, and `sent`
      are the messages that go out. */
  ghost predicate Moves(q: Queue<AckMessage>, more: Steps, r: Queue<AckMessage>, at: int, sent: seq<AckMessage>) {
    && r == Run(q, more) && OneArrival(more) && Distinct(sent)
    && Elements(sent) == (if more == [] then {} else Outgoing(q, more[0]))
    && (more != [] ==> more[0].now == at)
  }

  lemma OutAppended(es: Steps, more: Steps, log: seq<(int, AckMessage)>, r: Queue<AckMessage>, at: int, sent: seq<AckMessage>, k: AckMessage)
    requires Moves(Run(map[], es), more, r, at, sent) && Times(log, k) == Sends(es, k)
    ensures Times(log + Stamped(at, sent), k) == Sends(es + more, k)
  {
    SendsAppended(es, more, k);
    TimesAppended(log, at, sent, k);
    assert k in sent <==> k in Elements(sent);
  }

  lemma {:induction false} KeptOnce(b: Book, taken: seq<AckMessage>, t: Moment)
    requires Legal(b, taken, t)
    ensures Distinct(Kept(b.queue, taken, t.Reachable()))
  {
    if taken != [] {
      var before, k := taken[..|taken| - 1], taken[|taken| - 1];
      KeptOnce(b, before, t);
      NextIsNew(b, before, k, t);
      KeptAre(b.queue, before, t.Reachable());
      DistinctWith(Kept(b.queue, before, t.Reachable()), k);
    }
  }

  // ---------- arrivals ----------

  /** What reaches the manager: the three arms of its event loop, and connections that come and go. */
  datatype Arrival =
    | Pushed(message: AckMessage, at: int)
    | Acked(msgid: uint64, receiver: uint32, at: int)
    | Ticked(at: int, writable: set<AckMessage>)
    | Joined(uid: uint32, con: Connect)
    | Left(uid: uint32)

  /** Queue, index and connected users. */
  datatype Standing = Standing(book: Book, users: set<uint32>)

  ghost function Stands(m: AckMessageManage): Standing
    reads *
  {
    Standing(m.Books(), m.conManage.cons.Keys)
  }

  /** The arrival makes `r` of `s`, and `sent` goes out; a tick has its turns in the order `taken`. */
  ghost predicate Follows(s: Standing, a: Arrival, sent: seq<AckMessage>, taken: seq<AckMessage>, r: Standing) {
    match a
    case Pushed(message, at) =>
      && r.users == s.users
      && if message.receiver in s.users
         then && sent == [message] && r.book.queue == s.book.queue[message := Stamp(at + 5, 1)]
              && r.book.index == s.book.index[(message.receiver, message.msgid) := message]
         else sent == [] && r.book == s.book
    case Acked(msgid, receiver, _) =>
      && r.users == s.users && sent == [] && r.book.index == s.book.index - {(receiver, msgid)}
      && r.book.queue == if (receiver, msgid) in s.book.index then s.book.queue - {s.book.index[(receiver, msgid)]} else s.book.queue
    case Ticked(at, writable) =>
      var t := Moment(at, s.users, writable);
      && r.users == s.users && Ended(s.book, taken, t) && r.book == TurnsOn(s.book, taken, t)
      && RowByRow(s.book.queue, t, Stolen(s.book, taken, t), sent, r.book.queue)
    case Joined(uid, _) =>
      sent == [] && r == Standing(Book(s.book.queue, WithoutUser(s.book.index, uid)), s.users + {uid})
    case Left(uid) =>
      sent == [] && r == Standing(Book(s.book.queue, WithoutUser(s.book.index, uid)), s.users - {uid})
  }

  /** The tick reads slot 0 of an empty heap. */
  ghost predicate Starves(s: Standing, a: Arrival, taken: seq<AckMessage>) {
    a.Ticked? && Starved(s.book, taken, Moment(a.at, s.users, a.writable))
  }

  function WithoutUser(index: map<Key, AckMessage>, uid: uint32): map<Key, AckMessage> {
    map key | key in index && key.0 != uid :: index[key]
  }

  method ArrivePush(m: AckMessageManage, message: AckMessage, at: int) returns (sent: seq<AckMessage>, ghost more: Steps)
    requires m.Valid() && message !in m.Queued() && message.ntime == 0
    modifies message, m.msgheap, m.Queued().Keys, m.Contexts()
    ensures m.Valid() && Moves(old(m.Queued()), more, m.Queued(), at, sent)
    ensures PushesOnly(more, {message}) && TickTimes(more) == []
    ensures Follows(old(Stands(m)), Pushed(message, at), sent, [], Stands(m))
  {
    ghost var q := m.Queued();
    m.OnlyQueued(q.Keys);
    assert forall c :: c in m.ContextOf(message.receiver) ==> c in m.Contexts();
    sent := PushOne(m, message, at);
    more := [Event.Push(at, message, message.receiver in m.conManage.cons)];
    PushMoves(q, message, at, message.receiver in m.conManage.cons);
  }

  method PushOne(m: AckMessageManage, message: AckMessage, at: int) returns (sent: seq<AckMessage>)
    requires m.Valid() && message !in m.msgheap.items && message.ntime == 0
    modifies message, m.msgheap, m.msgheap.items`index, m.ContextOf(message.receiver)
    ensures m.Valid() && sent == if message.receiver in m.conManage.cons then [message] else []
    ensures m.Queued() == Next(old(m.Queued()), Event.Push(at, message, message.receiver in m.conManage.cons))
    ensures Follows(old(Stands(m)), Pushed(message, at), sent, [], Stands(m))
  {
    ghost var s := Stands(m);
    var con, ok := m.conManage.GetConnect(message.receiver);
    m.OnPush(message, at);
    sent := if ok then [message] else [];
    PushFollows(s, message, at, sent, Stands(m));
  }

  lemma PushFollows(s: Standing, message: AckMessage, at: int, sent: seq<AckMessage>, r: Standing)
    requires r.users == s.users && sent == if message.receiver in s.users then [message] else []
    requires r.book.queue == Next(s.book.queue, Event.Push(at, message, message.receiver in s.users))
    requires r.book.index == if message.receiver in s.users then s.book.index[KeyOf(message) := message] else s.book.index
    ensures Follows(s, Pushed(message, at), sent, [], r)
  {
    PushIsNext(s.book.queue, message, at, message.receiver in s.users);
  }

  method ArriveAck(m: AckMessageManage, msgid: uint64, receiver: uint32, at: int) returns (ghost more: Steps)
    requires m.Valid()
    modifies m.msgheap, m.Queued().Keys, m.Contexts()
    ensures m.Valid() && Moves(old(m.Queued()), more, m.Queued(), at, [])
    ensures PushesOnly(more, {}) && TickTimes(more) == []
    ensures Follows(old(Stands(m)), Acked(msgid, receiver, at), [], [], Stands(m))
  {
    ghost var q := m.Queued();
    m.OnlyQueued(q.Keys);
    assert forall c :: c in m.ContextOf(receiver) ==> c in m.Contexts();
    more := [];
    if k :| k in m.Shadow(receiver, msgid) {
      more := [Event.Ack(at, k)];
      RunOne(q, more[0]);
    }
    AckOne(m, msgid, receiver, at);
  }

  method AckOne(m: AckMessageManage, msgid: uint64, receiver: uint32, at: int)
    requires m.Valid()
    modifies m.msgheap, m.msgheap.items`index, m.ContextOf(receiver)
    ensures m.Valid() && Follows(old(Stands(m)), Acked(msgid, receiver, at), [], [], Stands(m))
    ensures m.Queued() == old(m.Queued() - m.Shadow(receiver, msgid))
  {
    m.ShadowIsEntry(receiver, msgid);
    m.OnDelete(msgid, receiver, at);
  }

  method ArriveTick(m: AckMessageManage, at: int, writable: set<AckMessage>)
    returns (sent: seq<AckMessage>, panicked: bool, ghost taken: seq<AckMessage>, ghost more: Steps)
    requires m.Valid()
    modifies m.msgheap, m.Queued().Keys, m.Contexts()
    ensures m.Valid() && Moves(old(m.Queued()), more, m.Queued(), at, sent)
    ensures PushesOnly(more, {}) && TickTimes(more) == [at] && (panicked ==> m.Queued() == map[])
    ensures Follows(old(Stands(m)), Ticked(at, writable), sent, taken, Stands(m))
    ensures panicked == Starves(old(Stands(m)), Ticked(at, writable), taken)
  {
    ghost var b, t := m.Books(), m.At(at, writable);
    sent, panicked, taken := TickOne(m, at, writable);
    more := TickMoves(b, taken, t);
  }

  method TickOne(m: AckMessageManage, at: int, writable: set<AckMessage>)
    returns (sent: seq<AckMessage>, panicked: bool, ghost taken: seq<AckMessage>)
    requires m.Valid()
    modifies m.msgheap, m.Queued().Keys, m.Contexts()
    ensures m.Valid() && panicked == Starves(old(Stands(m)), Ticked(at, writable), taken) && (panicked ==> m.Queued() == map[])
    ensures Follows(old(Stands(m)), Ticked(at, writable), sent, taken, Stands(m))
    ensures sent == Kept(old(m.Queued()), taken, m.At(at, writable).Reachable())
  {
    ghost var s := Stands(m);
    var requests;
    sent, requests, panicked, taken := m.TickTurns(at, writable);
    TickFollows(s, at, writable, sent, taken, Stands(m));
  }

  lemma TickFollows(s: Standing, at: int, writable: set<AckMessage>, sent: seq<AckMessage>, taken: seq<AckMessage>, r: Standing)
    requires var t := Moment(at, s.users, writable);
             && r.users == s.users && Ended(s.book, taken, t) && r.book == TurnsOn(s.book, taken, t)
             && RowByRow(s.book.queue, t, Stolen(s.book, taken, t), sent, r.book.queue)
    ensures Follows(s, Ticked(at, writable), sent, taken, r)
    ensures Starved(s.book, taken, Moment(at, s.users, writable)) ==> r.book.queue == map[]
  {
  }

  /** The steps of a tick, and what it writes. */
  lemma TickMoves(b: Book, taken: seq<AckMessage>, t: Moment) returns (more: Steps)
    requires Ended(b, taken, t)
    ensures Moves(b.queue, more, TurnsOn(b, taken, t).queue, t.now, Kept(b.queue, taken, t.Reachable()))
    ensures PushesOnly(more, {}) && TickTimes(more) == [t.now]
  {
    more := TickIsRun(b, taken, t);
    KeptOnce(b, taken, t);
    var sent := Kept(b.queue, taken, t.Reachable());
    OutgoingAre(b.queue, more[0], sent);
    OneTick(more);
  }

  lemma OutgoingAre(q: Queue<AckMessage>, e: Event<AckMessage>, sent: seq<AckMessage>)
    requires forall k :: k in sent <==> GoesOut(q, e, k)
    ensures Elements(sent) == Outgoing(q, e)
  {
    forall k | k in Elements(sent) ensures k in Outgoing(q, e) {
      assert GoesOut(q, e, k);
    }
    forall k | k in Outgoing(q, e) ensures k in Elements(sent) {
      assert GoesOut(q, e, k);
    }
  }

  lemma PushMoves(q: Queue<AckMessage>, message: AckMessage, at: int, connected: bool)
    ensures var e := Event.Push(at, message, connected);
            Moves(q, [e], Next(q, e), at, if connected then [message] else []) && TickTimes([e]) == []
  {
    RunOne(q, Event.Push(at, message, connected));
  }

  function TickTimes(es: Steps): seq<int> {
    if es == [] then [] else TickTimes(es[..|es| - 1]) + if es[|es| - 1].Tick? then [es[|es| - 1].now] else []
  }

  lemma {:induction false} OneTick(more: Steps)
    requires OneArrival(more) && more != [] && more[0].Tick?
    ensures TickTimes(more) == [more[0].now]
  {
    if |more| > 1 {
      OneTick(more[..|more| - 1]);
    } else {
      assert more[..0] == [];
    }
  }

  lemma RunOne(q: Queue<AckMessage>, e: Event<AckMessage>)
    ensures Run(q, [e]) == Next(q, e) && TickTimes([e]) == if e.Tick? then [e.now] else []
  {
    assert [e][..0] == [];
  }

  function NewMessages(a: Arrival): set<AckMessage> {
    if a.Pushed? then {a.message} else {}
  }

  function NewContexts(a: Arrival): set<Contex> {
    if a.Joined? then {a.con.ctx} else {}
  }

  function ClockOf(a: Arrival): seq<int> {
    if a.Ticked? then [a.at] else []
  }

  function TimeOf(a: Arrival): int {
    if a.Joined? || a.Left? then 0 else a.at
  }

  /** A new message has not been sent, and a new connection's context is empty. */
  ghost predicate Blank(a: Arrival)
    reads NewMessages(a), NewContexts(a)
  {
    (a.Pushed? ==> a.message.ntime == 0) && (a.Joined? ==> a.con.ctx.values == map[])
  }

  method ArriveJoin(m: AckMessageManage, uid: uint32, con: Connect)
    requires m.Valid() && con.ctx !in m.Contexts() && con.ctx.values == map[]
    modifies m.conManage
    ensures m.Valid() && m.Queued() == old(m.Queued()) && m.conManage.cons == old(m.conManage.cons)[uid := con]
    ensures Follows(old(Stands(m)), Joined(uid, con), [], [], Stands(m))
  {
    FlatEmptied(m.Tables(), uid);
    m.OnConnect(uid, con);
  }

  method ArriveLeave(m: AckMessageManage, uid: uint32)
    requires m.Valid()
    modifies m.conManage
    ensures m.Valid() && m.Queued() == old(m.Queued()) && m.conManage.cons == old(m.conManage.cons) - {uid}
    ensures Follows(old(Stands(m)), Left(uid), [], [], Stands(m))
  {
    FlatEmptied(m.Tables(), uid);
    m.OnDisconnect(uid);
  }

  method Arrive(m: AckMessageManage, a: Arrival)
    returns (sent: seq<AckMessage>, panicked: bool, ghost taken: seq<AckMessage>, ghost more: Steps)
    requires m.Valid() && Blank(a) && NewMessages(a) !! m.Queued().Keys && NewContexts(a) !! m.Contexts()
    modifies m.conManage, m.msgheap, m.Queued().Keys, m.Contexts(), NewMessages(a)
    ensures m.Valid() && Moves(old(m.Queued()), more, m.Queued(), TimeOf(a), sent)
    ensures PushesOnly(more, NewMessages(a)) && TickTimes(more) == ClockOf(a)
    ensures m.Contexts() <= old(m.Contexts()) + NewContexts(a) && (panicked ==> m.Queued() == map[])
    ensures Follows(old(Stands(m)), a, sent, taken, Stands(m)) && panicked == Starves(old(Stands(m)), a, taken)
  {
    sent, panicked, taken, more := [], false, [], [];
    if a.Pushed? {
      assert a.message in NewMessages(a);
      sent, more := ArrivePush(m, a.message, a.at);
    } else if a.Acked? {
      more := ArriveAck(m, a.msgid, a.receiver, a.at);
    } else if a.Ticked? {
      sent, panicked, taken, more := ArriveTick(m, a.at, a.writable);
    } else if a.Joined? {
      assert a.con.ctx in NewContexts(a);
      ArriveJoin(m, a.uid, a.con);
    } else {
      ArriveLeave(m, a.uid);
    }
  }

  // ---------- histories ----------

  /** What has happened: `es` are the steps, `handed` contains the messages pushed, and `log` tells
      what went out when. */
  ghost predicate Recorded(es: Steps, handed: set<AckMessage>, log: seq<(int, AckMessage)>) {
    && PushedOnce(es) && PushedFrom(es, handed)
    && (forall i :: 0 <= i < |log| ==> log[i].1 in handed)
    && (forall k :: k in handed ==> Times(log, k) == Sends(es, k))
  }

  lemma NeverPushed(es: Steps, handed: set<AckMessage>, k: AckMessage)
    requires PushedOnce(es) && PushedFrom(es, handed) && k !in handed
    ensures Sends(es, k) == [] && k !in Run(map[], es)
  {
    RetryBounds(es, k);
    assert !Pushes(es, k);
  }

  lemma {:induction false} NeverOut(log: seq<(int, AckMessage)>, k: AckMessage)
    requires forall i :: 0 <= i < |log| ==> log[i].1 != k
    ensures Times(log, k) == []
  {
    if log != [] {
      NeverOut(log[..|log| - 1], k);
    }
  }

  lemma RecordOne(es: Steps, handed: set<AckMessage>, log: seq<(int, AckMessage)>,
                  more: Steps, new': set<AckMessage>, r: Queue<AckMessage>, at: int, sent: seq<AckMessage>)
    requires Recorded(es, handed, log) && handed !! new'
    requires Moves(Run(map[], es), more, r, at, sent) && PushesOnly(more, new')
    ensures Recorded(es + more, handed + new', log + Stamped(at, sent)) && r == Run(map[], es + more)
  {
    RunAppended(map[], es, more);
    PushedOnceAppended(es, more, handed, new');
    forall k | k in handed + new' ensures Times(log + Stamped(at, sent), k) == Sends(es + more, k) {
      if k !in handed {
        NeverPushed(es, handed, k);
        NeverOut(log, k);
      }
      OutAppended(es, more, log, r, at, sent, k);
    }
    forall k | k in sent ensures k in handed + new' {
      assert k in Elements(sent);
      if k !in handed {
        NeverPushed(es, handed, k);
      }
    }
  }

  lemma QueuedAreHanded(es: Steps, handed: set<AckMessage>)
    requires PushedOnce(es) && PushedFrom(es, handed)
    ensures Run(map[], es).Keys <= handed
  {
    forall k | k in Run(map[], es) ensures k in handed {
      if k !in handed {
        NeverPushed(es, handed, k);
      }
    }
  }

  // ---------- runs ----------

  function MessagesOf(arrivals: seq<Arrival>): set<AckMessage> {
    if arrivals == [] then {} else NewMessages(arrivals[0]) + MessagesOf(arrivals[1..])
  }

  function ContextsOf(arrivals: seq<Arrival>): set<Contex> {
    if arrivals == [] then {} else NewContexts(arrivals[0]) + ContextsOf(arrivals[1..])
  }

  function Clock(arrivals: seq<Arrival>): seq<int> {
    if arrivals == [] then [] else Clock(arrivals[..|arrivals| - 1]) + ClockOf(arrivals[|arrivals| - 1])
  }

  /** Every message is pushed once and every connection joins once. */
  predicate AllNew(arrivals: seq<Arrival>, handed: set<AckMessage>, seen: set<Contex>) {
    arrivals != [] ==>
      var a := arrivals[0];
      NewMessages(a) !! handed && NewContexts(a) !! seen && AllNew(arrivals[1..], handed + NewMessages(a), seen + NewContexts(a))
  }

  lemma {:induction false} NewAt(arrivals: seq<Arrival>, handed: set<AckMessage>, seen: set<Contex>, j: nat)
    requires AllNew(arrivals, handed, seen) && j < |arrivals|
    ensures NewMessages(arrivals[j]) !! handed && NewContexts(arrivals[j]) !! seen
  {
    if j > 0 {
      NewAt(arrivals[1..], handed + NewMessages(arrivals[0]), seen + NewContexts(arrivals[0]), j - 1);
    }
  }

  lemma {:induction false} OneOfAll(arrivals: seq<Arrival>, j: nat)
    requires j < |arrivals|
    ensures NewMessages(arrivals[j]) <= MessagesOf(arrivals) && NewContexts(arrivals[j]) <= ContextsOf(arrivals)
  {
    if j > 0 {
      OneOfAll(arrivals[1..], j - 1);
    }
  }

  /** The manager stands where the history says. */
  ghost predicate At(m: AckMessageManage, es: Steps, handed: set<AckMessage>, seen: set<Contex>, log: seq<(int, AckMessage)>)
    reads *
  {
    m.Valid() && m.Queued() == Run(map[], es) && Recorded(es, handed, log) && m.Contexts() <= seen
  }

  /** One round of the event loop, with the history so far. */
  method Round(m: AckMessageManage, a: Arrival, ghost es: Steps, ghost handed: set<AckMessage>, ghost seen: set<Contex>, log: seq<(int, AckMessage)>)
    returns (sent: seq<AckMessage>, panicked: bool, ghost taken: seq<AckMessage>, ghost more: Steps)
    requires At(m, es, handed, seen, log) && Blank(a) && NewMessages(a) !! handed && NewContexts(a) !! seen
    modifies m.conManage, m.msgheap, handed, seen, NewMessages(a)
    ensures At(m, es + more, handed + NewMessages(a), seen + NewContexts(a), log + Stamped(TimeOf(a), sent))
    ensures PushesOnly(more, NewMessages(a)) && TickTimes(more) == ClockOf(a) && (panicked ==> m.Queued() == map[])
    ensures Follows(old(Stands(m)), a, sent, taken, Stands(m)) && panicked == Starves(old(Stands(m)), a, taken)
  {
    QueuedAreHanded(es, handed);
    sent, panicked, taken, more := Arrive(m, a);
    RecordOne(es, handed, log, more, NewMessages(a), m.Queued(), TimeOf(a), sent);
  }

  lemma ClockGrows(arrivals: seq<Arrival>, i: nat, more: Steps, es: Steps)
    requires i < |arrivals| && TickTimes(es) == Clock(arrivals[..i]) && TickTimes(more) == ClockOf(arrivals[i]) && OneArrival(more)
    ensures TickTimes(es + more) == Clock(arrivals[..i + 1])
  {
    assert arrivals[..i + 1][..i] == arrivals[..i];
    ClockAppended(es, more);
  }

  lemma {:induction false} ClockAppended(es: Steps, more: Steps)
    ensures TickTimes(es + more) == TickTimes(es) + TickTimes(more)
  {
    if more == [] {
      assert es + more == es;
    } else {
      var last := |more| - 1;
      ClockAppended(es, more[..last]);
      assert (es + more)[..|es + more| - 1] == es + more[..last] && (es + more)[|es + more| - 1] == more[last];
    }
  }

  /** No message is pushed. */
  predicate NoPush(arrivals: seq<Arrival>) {
    forall i :: 0 <= i < |arrivals| ==> !arrivals[i].Pushed?
  }

  lemma QuietGrows(es: Steps, more: Steps, new': set<AckMessage>)
    requires Quiet(es) && PushesOnly(more, new') && new' == {}
    ensures Quiet(es + more)
  {
  }

  /** After the first `i` arrivals: those to come are new to what has come, and the steps `es` have
      their clock. */
  ghost predicate Midway(arrivals: seq<Arrival>, i: nat, handed: set<AckMessage>, seen: set<Contex>, hs: set<AckMessage>, ss: set<Contex>, es: Steps) {
    && i <= |arrivals| && AllNew(arrivals[i..], hs, ss)
    && hs + MessagesOf(arrivals[i..]) == handed + MessagesOf(arrivals)
    && ss + ContextsOf(arrivals[i..]) == seen + ContextsOf(arrivals)
    && TickTimes(es) == Clock(arrivals[..i]) && (NoPush(arrivals) ==> Quiet(es))
  }

  lemma MidwayNext(arrivals: seq<Arrival>, i: nat, handed: set<AckMessage>, seen: set<Contex>, hs: set<AckMessage>, ss: set<Contex>, es: Steps, more: Steps)
    requires Midway(arrivals, i, handed, seen, hs, ss, es) && i < |arrivals|
    requires PushesOnly(more, NewMessages(arrivals[i])) && TickTimes(more) == ClockOf(arrivals[i])
    ensures Midway(arrivals, i + 1, handed, seen, hs + NewMessages(arrivals[i]), ss + NewContexts(arrivals[i]), es + more)
  {
    var a := arrivals[i];
    assert arrivals[i..][0] == a && arrivals[i..][1..] == arrivals[i + 1..];
    ClockGrows(arrivals, i, more, es);
    if NoPush(arrivals) {
      QuietGrows(es, more, NewMessages(a));
    }
  }

  /** The arrival at hand touches nothing of those still to come. */
  lemma LaterAreApart(arrivals: seq<Arrival>, i: nat, handed: set<AckMessage>, seen: set<Contex>, hs: set<AckMessage>, ss: set<Contex>, es: Steps)
    requires Midway(arrivals, i, handed, seen, hs, ss, es) && i < |arrivals|
    ensures NewMessages(arrivals[i]) !! hs && NewContexts(arrivals[i]) !! ss
    ensures forall j :: i < j < |arrivals| ==>
              NewMessages(arrivals[j]) !! hs + NewMessages(arrivals[i]) && NewContexts(arrivals[j]) !! ss + NewContexts(arrivals[i])
    ensures hs <= handed + MessagesOf(arrivals) && ss <= seen + ContextsOf(arrivals)
    ensures NewMessages(arrivals[i]) <= MessagesOf(arrivals)
  {
    var a := arrivals[i];
    assert arrivals[i..][0] == a && arrivals[i..][1..] == arrivals[i + 1..];
    forall j | i < j < |arrivals| ensures NewMessages(arrivals[j]) !! hs + NewMessages(a) && NewContexts(arrivals[j]) !! ss + NewContexts(a) {
      NewAt(arrivals[i + 1..], hs + NewMessages(a), ss + NewContexts(a), j - i - 1);
    }
    OneOfAll(arrivals, i);
  }

  ghost predicate AllBlank(arrivals: seq<Arrival>, i: nat)
    reads MessagesOf(arrivals), ContextsOf(arrivals)
    requires i <= |arrivals|
  {
    forall j :: i <= j < |arrivals| ==> BlankAt(arrivals, j)
  }

  ghost predicate BlankAt(arrivals: seq<Arrival>, j: nat)
    reads MessagesOf(arrivals), ContextsOf(arrivals)
    requires j < |arrivals|
  {
    OneOfAll(arrivals, j);
    Blank(arrivals[j])
  }

  /** What an arrival found and left, and what went out. */
  datatype Passage = Passage(before: Standing, taken: seq<AckMessage>, sent: seq<AckMessage>, after: Standing)

  /** The first arrivals lead, one after the other, from `s` to `r`. */
  ghost predicate Traced(s: Standing, arrivals: seq<Arrival>, trace: seq<Passage>, r: Standing) {
    && |trace| <= |arrivals| && r == (if trace == [] then s else trace[|trace| - 1].after)
    && forall i :: 0 <= i < |trace| ==> Passes(s, arrivals, trace, i)
  }

  ghost predicate Passes(s: Standing, arrivals: seq<Arrival>, trace: seq<Passage>, i: nat)
    requires i < |trace| <= |arrivals|
  {
    && trace[i].before == (if i == 0 then s else trace[i - 1].after)
    && Follows(trace[i].before, arrivals[i], trace[i].sent, trace[i].taken, trace[i].after)
  }

  /** What went out on the way. */
  ghost function Written(arrivals: seq<Arrival>, trace: seq<Passage>): seq<(int, AckMessage)>
    requires |trace| <= |arrivals|
  {
    if trace == [] then [] else
      var i := |trace| - 1;
      Written(arrivals, trace[..i]) + Stamped(TimeOf(arrivals[i]), trace[i].sent)
  }

  /** The trace leads from `s` to `r`, and `log` is `before` and what went out on the way. */
  ghost predicate Told(s: Standing, before: seq<(int, AckMessage)>, arrivals: seq<Arrival>, trace: seq<Passage>, r: Standing, log: seq<(int, AckMessage)>) {
    |trace| <= |arrivals| && Traced(s, arrivals, trace, r) && log == before + Written(arrivals, trace)
  }

  ghost predicate EndsStarving(arrivals: seq<Arrival>, trace: seq<Passage>) {
    var i := |trace| - 1;
    0 <= i < |arrivals| && Starves(trace[i].before, arrivals[i], trace[i].taken)
  }

  lemma TraceGrows(s: Standing, arrivals: seq<Arrival>, trace: seq<Passage>, p: Passage)
    requires |trace| < |arrivals| && Follows(p.before, arrivals[|trace|], p.sent, p.taken, p.after)
    requires Traced(s, arrivals, trace, p.before)
    ensures Traced(s, arrivals, trace + [p], p.after)
  {
    forall i | 0 <= i < |trace| ensures Passes(s, arrivals, trace + [p], i) {
      assert Passes(s, arrivals, trace, i);
    }
  }

  lemma NoneLeft(s: Standing, arrivals: seq<Arrival>, trace: seq<Passage>, r: Standing)
    requires Traced(s, arrivals, trace, r)
    ensures EndsStarving(arrivals, trace) ==> r.book.queue == map[]
  {
    if trace != [] {
      assert Passes(s, arrivals, trace, |trace| - 1);
    }
  }

  lemma LogGrows(before: seq<(int, AckMessage)>, arrivals: seq<Arrival>, trace: seq<Passage>, p: Passage)
    requires |trace| < |arrivals|
    ensures before + Written(arrivals, trace + [p]) == before + Written(arrivals, trace) + Stamped(TimeOf(arrivals[|trace|]), p.sent)
  {
    assert (trace + [p])[..|trace|] == trace && (trace + [p])[|trace|] == p;
    Associative(before, Written(arrivals, trace), Stamped(TimeOf(arrivals[|trace|]), p.sent));
  }

  /** A round in the middle of the loop. */
  method NextArrival(m: AckMessageManage, arrivals: seq<Arrival>, i: nat, ghost past: Steps, ghost es: Steps,
                     ghost handed: set<AckMessage>, ghost seen: set<Contex>, ghost hs: set<AckMessage>, ghost ss: set<Contex>, log: seq<(int, AckMessage)>)
    returns (sent: seq<AckMessage>, panicked: bool, ghost p: Passage, ghost more: Steps)
    requires Midway(arrivals, i, handed, seen, hs, ss, es) && i < |arrivals| && AllBlank(arrivals, i)
    requires At(m, past + es, hs, ss, log)
    modifies m.conManage, m.msgheap, hs, ss, NewMessages(arrivals[i])
    ensures Midway(arrivals, i + 1, handed, seen, hs + NewMessages(arrivals[i]), ss + NewContexts(arrivals[i]), es + more)
    ensures At(m, past + (es + more), hs + NewMessages(arrivals[i]), ss + NewContexts(arrivals[i]), log + Stamped(TimeOf(arrivals[i]), sent))
    ensures p.before == old(Stands(m)) && p.sent == sent && p.after == Stands(m) && Follows(p.before, arrivals[i], sent, p.taken, p.after)
    ensures panicked == Starves(p.before, arrivals[i], p.taken)
    ensures AllBlank(arrivals, i + 1) && (panicked ==> m.Queued() == map[])
  {
    LaterAreApart(arrivals, i, handed, seen, hs, ss, es);
    assert BlankAt(arrivals, i);
    ghost var s := Stands(m);
    ghost var taken;
    sent, panicked, taken, more := Round(m, arrivals[i], past + es, hs, ss, log);
    p := Passage(s, taken, sent, Stands(m));
    forall j | i < j < |arrivals| ensures BlankAt(arrivals, j) {
      assert old(BlankAt(arrivals, j));
    }
    MidwayNext(arrivals, i, handed, seen, hs, ss, es, more);
    Associative(past, es, more);
  }

  /** And its passage is the next of the trace. */
  method NextPassage(m: AckMessageManage, arrivals: seq<Arrival>, i: nat, ghost past: Steps, ghost es: Steps,
                     ghost handed: set<AckMessage>, ghost seen: set<Contex>, ghost hs: set<AckMessage>, ghost ss: set<Contex>, log: seq<(int, AckMessage)>,
                     ghost start: Standing, ghost before: seq<(int, AckMessage)>, ghost trace: seq<Passage>)
    returns (longer: seq<(int, AckMessage)>, panicked: bool, ghost es': Steps, ghost hs': set<AckMessage>, ghost ss': set<Contex>, ghost trace': seq<Passage>)
    requires Midway(arrivals, i, handed, seen, hs, ss, es) && i < |arrivals| && AllBlank(arrivals, i)
    requires At(m, past + es, hs, ss, log) && |trace| == i && Told(start, before, arrivals, trace, Stands(m), log)
    modifies m.conManage, m.msgheap, hs, ss, NewMessages(arrivals[i])
    ensures Midway(arrivals, i + 1, handed, seen, hs', ss', es') && AllBlank(arrivals, i + 1) && At(m, past + es', hs', ss', longer)
    ensures hs' <= handed + MessagesOf(arrivals) && ss' <= seen + ContextsOf(arrivals)
    ensures |trace'| == i + 1 && Told(start, before, arrivals, trace', Stands(m), longer) && panicked == EndsStarving(arrivals, trace')
  {
    ghost var p, more;
    var sent;
    sent, panicked, p, more := NextArrival(m, arrivals, i, past, es, handed, seen, hs, ss, log);
    longer := log + Stamped(TimeOf(arrivals[i]), sent);
    TraceGrows(start, arrivals, trace, p);
    LogGrows(before, arrivals, trace, p);
    trace', es', hs', ss' := trace + [p], es + more, hs + NewMessages(arrivals[i]), ss + NewContexts(arrivals[i]);
  }

  /** The loop itself, with the messages and contexts that have come. */
  method Rounds(m: AckMessageManage, arrivals: seq<Arrival>, ghost past: Steps, ghost handed: set<AckMessage>, ghost seen: set<Contex>,
                before: seq<(int, AckMessage)>, ghost start: Standing)
    returns (log: seq<(int, AckMessage)>, panicked: bool, ghost es: Steps, ghost hs: set<AckMessage>, ghost ss: set<Contex>, ghost trace: seq<Passage>)
    requires At(m, past, handed, seen, before) && AllNew(arrivals, handed, seen) && AllBlank(arrivals, 0) && start == Stands(m)
    modifies m.conManage, m.msgheap, handed, seen, MessagesOf(arrivals), ContextsOf(arrivals)
    ensures Midway(arrivals, |trace|, handed, seen, hs, ss, es) && At(m, past + es, hs, ss, log)
    ensures hs <= handed + MessagesOf(arrivals) && ss <= seen + ContextsOf(arrivals)
    ensures Told(start, before, arrivals, trace, Stands(m), log) && panicked == EndsStarving(arrivals, trace)
    ensures |trace| < |arrivals| ==> panicked
  {
    log, panicked, es, hs, ss, trace := before, false, [], handed, seen, [];
    assert past + [] == past && arrivals[0..] == arrivals;
    var i := 0;
    while i < |arrivals| && !panicked
      invariant 0 <= i <= |arrivals| && Midway(arrivals, i, handed, seen, hs, ss, es) && AllBlank(arrivals, i)
      invariant hs <= handed + MessagesOf(arrivals) && ss <= seen + ContextsOf(arrivals) && At(m, past + es, hs, ss, log)
      invariant |trace| == i && Told(start, before, arrivals, trace, Stands(m), log) && panicked == EndsStarving(arrivals, trace)
    {
      LaterAreApart(arrivals, i, handed, seen, hs, ss, es);
      log, panicked, es, hs, ss, trace := NextPassage(m, arrivals, i, past, es, handed, seen, hs, ss, log, start, before, trace);
      i := i + 1;
    }
  }

  /** The event loop over any arrivals, until a tick panics: the queue is that of the run `past` +
      `es`, every message pushed once, and `log` tells exactly when each message went out. The
      `trace` tells what each arrival did. */
  method TimeLoop(m: AckMessageManage, arrivals: seq<Arrival>,
                  ghost past: Steps, ghost handed: set<AckMessage>, ghost seen: set<Contex>, before: seq<(int, AckMessage)>)
    returns (log: seq<(int, AckMessage)>, panicked: bool, ghost es: Steps, ghost trace: seq<Passage>)
    requires At(m, past, handed, seen, before) && AllNew(arrivals, handed, seen) && AllBlank(arrivals, 0)
    modifies m.conManage, m.msgheap, handed, seen, MessagesOf(arrivals), ContextsOf(arrivals)
    ensures At(m, past + es, handed + MessagesOf(arrivals), seen + ContextsOf(arrivals), log)
    ensures if panicked then m.Queued() == map[] else TickTimes(es) == Clock(arrivals)
    ensures NoPush(arrivals) ==> Quiet(es)
    ensures Told(old(Stands(m)), before, arrivals, trace, Stands(m), log) && panicked == EndsStarving(arrivals, trace)
    ensures |trace| < |arrivals| ==> panicked
  {
    ghost var hs, ss, start := handed, seen, Stands(m);
    log, panicked, es, hs, ss, trace := Rounds(m, arrivals, past, handed, seen, before, start);
    assert arrivals[..|arrivals|] == arrivals;
    NoneLeft(start, arrivals, trace, Stands(m));
    StillAt(m, past + es, hs, ss, log, handed + MessagesOf(arrivals), seen + ContextsOf(arrivals));
  }

  lemma StillAt(m: AckMessageManage, es: Steps, handed: set<AckMessage>, seen: set<Contex>, log: seq<(int, AckMessage)>,
                more: set<AckMessage>, wider: set<Contex>)
    requires At(m, es, handed, seen, log) && handed <= more && seen <= wider
    ensures At(m, es, more, wider, log)
  {
    RecordedMore(es, handed, more, log);
  }

  /** A history holds for more messages handed over than were pushed. */
  lemma RecordedMore(es: Steps, handed: set<AckMessage>, more: set<AckMessage>, log: seq<(int, AckMessage)>)
    requires Recorded(es, handed, log) && handed <= more
    ensures Recorded(es, more, log)
  {
    forall k | k in more ensures Times(log, k) == Sends(es, k) {
      if k !in handed {
        NeverPushed(es, handed, k);
        NeverOut(log, k);
      }
    }
  }

  // ---------- the bounds, for the manager ----------

  /** `k` went out at the times `out`: at most four, each at least six seconds after the one before;
      while it is queued its counter is their number and its deadline is five seconds after the last. */
  ghost predicate WithinBounds(q: Queue<AckMessage>, k: AckMessage, out: seq<int>) {
    && |out| <= 4 && Spaced(out, ACK_WAIT + 1)
    && (k in q ==> 1 <= q[k].ntime == |out| && q[k].timeout == out[|out| - 1] + ACK_WAIT)
  }

  /** Wherever the loop has come to, every message handed over is within bounds. */
  lemma Bounds(m: AckMessageManage, es: Steps, handed: set<AckMessage>, seen: set<Contex>, log: seq<(int, AckMessage)>)
    requires At(m, es, handed, seen, log)
    ensures m.Queued().Keys <= handed && forall k :: k in handed ==> WithinBounds(m.Queued(), k, Times(log, k))
  {
    QueuedAreHanded(es, handed);
    forall k | k in handed ensures WithinBounds(m.Queued(), k, Times(log, k)) {
      RetryBounds(es, k);
    }
  }

  method Anew() returns (m: AckMessageManage)
    ensures At(m, [], {}, {}, []) && Stands(m) == Standing(Book(map[], map[]), {})
    ensures fresh(m.conManage) && fresh(m.msgheap)
  {
    m := new AckMessageManage();
    assert m.Tables() == map[];
  }

  /** A manager from its first second on. */
  method FromTheStart(arrivals: seq<Arrival>) returns (m: AckMessageManage, log: seq<(int, AckMessage)>, panicked: bool, ghost trace: seq<Passage>)
    requires AllNew(arrivals, {}, {}) && AllBlank(arrivals, 0)
    modifies MessagesOf(arrivals), ContextsOf(arrivals)
    ensures m.Valid() && m.Queued().Keys <= MessagesOf(arrivals)
    ensures forall k :: k in MessagesOf(arrivals) ==> WithinBounds(m.Queued(), k, Times(log, k))
    ensures Told(Standing(Book(map[], map[]), {}), [], arrivals, trace, Stands(m), log) && panicked == EndsStarving(arrivals, trace)
    ensures |trace| < |arrivals| ==> panicked
  {
    m := Anew();
    forall j | 0 <= j < |arrivals| ensures BlankAt(arrivals, j) {
      assert old(BlankAt(arrivals, j));
    }
    ghost var es;
    log, panicked, es, trace := TimeLoop(m, arrivals, [], {}, {}, []);
    Bounds(m, [] + es, {} + MessagesOf(arrivals), {} + ContextsOf(arrivals), log);
  }

  /** The first tick comes after `t0`, each later one more than five seconds after the one before. */
  predicate SpacedClock(t0: int, ts: seq<int>) {
    ts != [] ==>
      var before := ts[..|ts| - 1];
      SpacedClock(t0, before) && (if before == [] then t0 else before[|before| - 1] + ACK_WAIT) < ts[|ts| - 1]
  }

  lemma {:induction false} ClockSpaces(t0: int, es: Steps)
    requires SpacedClock(t0, TickTimes(es))
    ensures SpacedTicks(t0, es) && Ticks(es) == |TickTimes(es)|
    ensures var ts := TickTimes(es); LatestDeadline(t0, es) == if ts == [] then t0 else ts[|ts| - 1] + ACK_WAIT
  {
    if es != [] {
      var before := es[..|es| - 1];
      if es[|es| - 1].Tick? {
        assert TickTimes(es)[..|TickTimes(es)| - 1] == TickTimes(before);
      } else {
        assert TickTimes(es) == TickTimes(before);
      }
      ClockSpaces(t0, before);
    }
  }

  lemma AttemptedSoFar(es: Steps)
    requires PushedOnce(es)
    ensures Attempted(Run(map[], es))
  {
    forall k | k in Run(map[], es) ensures 1 <= Run(map[], es)[k].ntime <= 4 {
      RetryBounds(es, k);
    }
  }

  /** While nothing is pushed, at most four expiries per queued message happen, whatever else
      arrives; and four ticks more than five seconds apart empty the queue, or panic on an empty heap. */
  method Drain(m: AckMessageManage, arrivals: seq<Arrival>, t0: int,
               ghost past: Steps, ghost handed: set<AckMessage>, ghost seen: set<Contex>, before: seq<(int, AckMessage)>)
    returns (log: seq<(int, AckMessage)>, ghost es: Steps)
    requires At(m, past, handed, seen, before) && AllNew(arrivals, handed, seen) && AllBlank(arrivals, 0) && NoPush(arrivals)
    modifies m.conManage, m.msgheap, handed, seen, MessagesOf(arrivals), ContextsOf(arrivals)
    ensures At(m, past + es, handed + MessagesOf(arrivals), seen + ContextsOf(arrivals), log) && Quiet(es)
    ensures m.Queued() == Run(old(m.Queued()), es) && Expiries(old(m.Queued()), es) <= 4 * |old(m.Queued())|
    ensures SpacedClock(t0, Clock(arrivals)) && |Clock(arrivals)| >= 4 && (forall k :: k in old(m.Queued()) ==> old(m.Queued())[k].timeout <= t0) ==>
              m.Queued() == map[]
  {
    ghost var q := m.Queued();
    var panicked;
    ghost var trace;
    log, panicked, es, trace := TimeLoop(m, arrivals, past, handed, seen, before);
    RunAppended(map[], past, es);
    AttemptedSoFar(past);
    DrainBound(q, es);
    if SpacedClock(t0, Clock(arrivals)) && |Clock(arrivals)| >= 4 && (forall k :: k in q ==> q[k].timeout <= t0) && !panicked {
      ClockSpaces(t0, es);
      FourTicksEmpty(q, t0, es);
    }
  }
}
