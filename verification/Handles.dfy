/** One connection server's request handlers: comit/handles/chathandle.go,
    comit/handles/pullmessage.go and comit/grpcserver/server.go. A handler's database
    statements go to the shared store; what it sends, queues and calls is recorded here. */
module Handles {
  import opened Collections
  import opened SqlRows
  import opened Stores
  import opened FanOut
  import OneTable
  import GroupTables
  import Notifies

  type OneMessage = OneTable.Onemessage
  type GroupMessage = GroupTables.Message

  const ONE_PAGE := 1000
  const GROUP_PAGE := 10000

  // message types and ack states of comit/config/config.go
  const ONE_MESSAGE := 2
  const GROUP_MESSAGE := 3
  const FRIEND_AGREE := 12
  const ACK_SUCCESS := 0
  const ACK_SAVE_FAIL := 1

  /** What a server writes to a connection. */
  datatype Frame =
    | Ack(rek: nat, status: nat, msgtype: nat)
    | AckMany(reks: seq<nat>, status: nat)
    | One(m: OneMessage)
    | Group(g: GroupMessage)
    | PulledOnes(page: seq<OneMessage>)
    | PulledGroups(rows: seq<(nat, Option<GroupMessage>)>)
    | Notices(batch: set<Notifies.Notifie>)
    | Agree(body: string)

  datatype Letter = Letter(to: nat, frame: Frame)

  /** A message handed to the retry manager; its body is the frame's. */
  datatype Push = Push(msgid: nat, receiver: nat, frame: Frame)

  /** A call of another server. */
  datatype Call =
    | Forward(server: string, m: OneMessage)
    | ForwardGroup(server: string, g: GroupMessage, receivers: seq<nat>)

  class Server {
    const store: Store
    var connected: set<nat>
    var sent: seq<Letter>
    var pushed: seq<Push>
    var acked: seq<(nat, nat)>  // (rek, receiver) handed to AckMange.Delete
    var calls: seq<Call>

    constructor (store: Store)
      ensures this.store == store && connected == {} && sent == [] && pushed == [] && acked == [] && calls == []
    {
      this.store := store;
      connected, sent, pushed, acked, calls := {}, [], [], [], [];
    }

    /** `m` has been accepted into the store at some time. */
    ghost predicate Backed(m: OneMessage)
      reads store
    {
      OneTable.Accepted(store.oneLog, m) > 0
    }

    /** `g` is stored, and user `u` was given a pair for it at some time. */
    ghost predicate BackedPair(g: GroupMessage, u: nat)
      reads store
    {
      && g.rek in store.groups.messages && store.groups.messages[g.rek] == g
      && GroupTables.FannedOut(store.groupLog, (g.rek, u)) > 0
    }

    ghost predicate BackedPush(p: Push)
      reads store
    {
      match p.frame
      case One(m) => Backed(m) && p.msgid == m.rek && p.receiver == m.receiver
      case Group(g) => BackedPair(g, p.receiver) && p.msgid == g.rek
      case _ => false
    }

    ghost predicate BackedCall(c: Call)
      reads store
    {
      match c
      case Forward(_, m) => Backed(m)
      case ForwardGroup(_, g, receivers) => forall u :: u in receivers ==> BackedPair(g, u)
    }

    /** Every message queued for retries or forwarded has been accepted before. */
    ghost predicate Honest()
      reads this, store
    {
      && (forall i :: 0 <= i < |pushed| ==> BackedPush(pushed[i]))
      && (forall i :: 0 <= i < |calls| ==> BackedCall(calls[i]))
    }

    ghost predicate Valid()
      reads this, store
    {
      store.Valid() && Honest()
    }

    /** What has been accepted stays so under any statements. */
    twostate lemma StaysBacked()
      requires store.Grown()
      ensures forall m :: old(Backed(m)) ==> Backed(m)
      ensures forall g, u :: old(BackedPair(g, u)) ==> BackedPair(g, u)
    {
      forall m | old(Backed(m)) ensures Backed(m) {
        OneTable.AcceptedStays(old(store.oneLog), store.oneLog, m);
      }
      forall g, u | old(BackedPair(g, u)) ensures BackedPair(g, u) {
        GroupTables.FannedOutStays(old(store.groupLog), store.groupLog, (g.rek, u));
      }
    }

    /** Honesty survives the statements of any server. */
    twostate lemma StaysHonest()
      requires old(Honest()) && store.Grown() && pushed == old(pushed) && calls == old(calls)
      ensures Honest()
      ensures forall g, u :: old(BackedPair(g, u)) ==> BackedPair(g, u)
    {
      StaysBacked();
      forall i | 0 <= i < |pushed| ensures BackedPush(pushed[i]) {
        assert old(BackedPush(pushed[i]));
      }
      forall i | 0 <= i < |calls| ensures BackedCall(calls[i]) {
        assert old(BackedCall(calls[i]));
      }
    }

    /** Lines 50 to 83 of the handler: pass an accepted message on. */
    method Deliver(msg: OneMessage, home: Option<string>, comits: set<string>)
      requires Valid() && Backed(msg)
      modifies this`calls, this`pushed, this`sent
      ensures Valid()
      ensures msg.receiver in connected ==>
                && sent == old(sent) + [Letter(msg.receiver, One(msg))]
                && pushed == old(pushed) + [Push(msg.rek, msg.receiver, One(msg))] && calls == old(calls)
      ensures msg.receiver !in connected ==>
                && sent == old(sent) && pushed == old(pushed)
                && calls == if home.Some? && home.value in comits then old(calls) + [Forward(home.value, msg)] else old(calls)
    {
      if msg.receiver !in connected {
        if home.Some? && home.value in comits {
          calls := calls + [Forward(home.value, msg)];
        }
      } else {
        pushed := pushed + [Push(msg.rek, msg.receiver, One(msg))];
        sent := sent + [Letter(msg.receiver, One(msg))];
      }
    }

    /** Lines 25 to 48: check, store and acknowledge. Nothing is said to a connection that sends
        in another's name. */
    method Accept(con: nat, msg: OneMessage, friend: bool, dbOk: bool) returns (ok: bool)
      requires Valid()
      modifies this`sent, store`ones, store`oneLog
      ensures Valid() && (ok ==> Backed(msg))
      ensures ok == (msg.sender == con && friend && dbOk && msg.rek !in old(store.ones))
      ensures store.oneLog == if ok then old(store.oneLog) + [OneTable.Insert(msg)] else old(store.oneLog)
      ensures msg.sender != con ==> sent == old(sent)
      ensures msg.sender == con ==> sent == old(sent) + [AckFor(con, msg, friend, ok)]
      ensures store.ones == if ok then old(store.ones)[msg.rek := msg] else old(store.ones)
    {
      if msg.sender != con {
        return false;
      }
      if !friend {
        SendAck(con, msg.rek, ACK_SAVE_FAIL, GROUP_MESSAGE);
        return false;
      }
      ok := store.AddOnemessage(msg, dbOk);
      if !ok {
        SendAck(con, msg.rek, ACK_SAVE_FAIL, ONE_MESSAGE);
        return false;
      }
      OneTable.AcceptedGrows(old(store.oneLog), OneTable.Insert(msg), msg);
      StaysHonest();
      SendAck(con, msg.rek, ACK_SUCCESS, ONE_MESSAGE);
    }

    /** The sender's ack; the refusal of a stranger carries the type of group messages. */
    function AckFor(con: nat, msg: OneMessage, friend: bool, ok: bool): (ack: Letter)
      ensures ack.to == con && ack.frame.Ack? && ack.frame.rek == msg.rek
      ensures ack.frame.status == (if ok then 0 else 1) && ack.frame.msgtype == (if friend then 2 else 3)
    {
      Letter(con, Ack(msg.rek, if ok then ACK_SUCCESS else ACK_SAVE_FAIL, if friend then ONE_MESSAGE else GROUP_MESSAGE))
    }

    /** A client's one-to-one message. Parameters: the friend check, the insert's luck, the
        server the receiver is recorded on, and the servers this one can call. */
    method OneMessageHandle(con: nat, msg: OneMessage, friend: bool, dbOk: bool, home: Option<string>, comits: set<string>)
      returns (ok: bool)
      requires Valid()
      modifies this`calls, this`pushed, this`sent, store`ones, store`oneLog
      ensures Valid()
      ensures ok == (msg.sender == con && friend && dbOk && msg.rek !in old(store.ones))
      ensures store.oneLog == if ok then old(store.oneLog) + [OneTable.Insert(msg)] else old(store.oneLog)
      ensures store.ones == if ok then old(store.ones)[msg.rek := msg] else old(store.ones)
      ensures !ok ==> pushed == old(pushed) && calls == old(calls)
      ensures msg.sender != con ==> sent == old(sent)
      ensures msg.sender == con && !ok ==> sent == old(sent) + [AckFor(con, msg, friend, false)]
      ensures ok && msg.receiver in connected ==>
                && sent == old(sent) + [AckFor(con, msg, true, true)] + [Letter(msg.receiver, One(msg))]
                && pushed == old(pushed) + [Push(msg.rek, msg.receiver, One(msg))] && calls == old(calls)
      ensures ok && msg.receiver !in connected ==>
                && sent == old(sent) + [AckFor(con, msg, true, true)] && pushed == old(pushed)
                && calls == if home.Some? && home.value in comits then old(calls) + [Forward(home.value, msg)] else old(calls)
    {
      ok := Accept(con, msg, friend, dbOk);
      if ok {
        Deliver(msg, home, comits);
      }
    }

    method SendAck(con: nat, rek: nat, status: nat, msgtype: nat)
      modifies this`sent
      ensures sent == old(sent) + [Letter(con, Ack(rek, status, msgtype))]
    {
      sent := sent + [Letter(con, Ack(rek, status, msgtype))];
    }

    /** Another server passes on a message. */
    method Transfer(m: OneMessage)
      modifies this`pushed, this`sent
      ensures old(Valid()) && Backed(m) ==> Valid()
      ensures m.receiver !in connected ==> sent == old(sent) && pushed == old(pushed)
      ensures m.receiver in connected ==>
                sent == old(sent) + [Letter(m.receiver, One(m))] && pushed == old(pushed) + [Push(m.rek, m.receiver, One(m))]
    {
      if m.receiver !in connected {
        return;
      }
      sent := sent + [Letter(m.receiver, One(m))];
      pushed := pushed + [Push(m.rek, m.receiver, One(m))];
    }

    /** A receiver acknowledges one message: the retry manager forgets it, and the stored copy of
        the given kind goes, if it is this connection's. */
    method AckMesageHandle(con: nat, rek: nat, msgtype: nat, dbOk: bool)
      requires Valid()
      modifies this`acked, store`ones, store`oneLog, store`groups, store`groupLog
      ensures Valid() && acked == old(acked) + [(rek, con)]
      ensures store.oneLog == if msgtype == 1 && dbOk then old(store.oneLog) + [OneTable.Delete({rek}, con)] else old(store.oneLog)
      ensures store.groupLog == if msgtype == 2 && dbOk then old(store.groupLog) + [GroupTables.DeleteUsers({rek}, con)] else old(store.groupLog)
      ensures msgtype == 1 && dbOk ==> forall k :: k in store.ones <==> k in old(store.ones) && !(k == rek && old(store.ones)[k].receiver == con)
      ensures forall k :: k in store.ones ==> k in old(store.ones) && store.ones[k] == old(store.ones)[k]
      ensures !(msgtype == 1 && dbOk) ==> store.ones == old(store.ones)
      ensures msgtype == 2 && dbOk ==> forall row :: row in store.groups.users <==> row in old(store.groups.users) && !(row.0 == rek && row.1 == con)
      ensures store.groups.messages == old(store.groups.messages) && (!(msgtype == 2 && dbOk) ==> store.groups == old(store.groups))
    {
      acked := acked + [(rek, con)];
      assert Keys([rek]) == {rek};
      if msgtype == 1 {
        var ok := DropOnes([rek], con, dbOk);
      } else if msgtype == 2 {
        var ok := DropPairs([rek], con, dbOk);
      }
    }

    /** The deletion both handlers use; it leaves the queues honest. */
    method DropOnes(reks: seq<nat>, con: nat, dbOk: bool) returns (ok: bool)
      requires Valid()
      modifies store`ones, store`oneLog
      ensures Valid() && ok == dbOk
      ensures store.oneLog == if ok then old(store.oneLog) + [OneTable.Delete(Keys(reks), con)] else old(store.oneLog)
      ensures ok ==> forall k :: k in store.ones <==> k in old(store.ones) && !(k in reks && old(store.ones)[k].receiver == con)
      ensures forall k :: k in store.ones ==> k in old(store.ones) && store.ones[k] == old(store.ones)[k]
      ensures !ok ==> store.ones == old(store.ones)
    {
      ok := store.DeleteOnemessageMany(reks, con, dbOk);
      if ok {
        StaysHonest();
      }
    }

    method DropPairs(reks: seq<nat>, con: nat, dbOk: bool) returns (ok: bool)
      requires Valid()
      modifies store`groups, store`groupLog
      ensures Valid() && ok == dbOk
      ensures store.groupLog == if ok then old(store.groupLog) + [GroupTables.DeleteUsers(Keys(reks), con)] else old(store.groupLog)
      ensures ok ==> forall row :: row in store.groups.users <==> row in old(store.groups.users) && !(row.0 in reks && row.1 == con)
      ensures store.groups.messages == old(store.groups.messages) && (!ok ==> store.groups == old(store.groups))
    {
      ok := store.DeleteGroupUserMessageMany(reks, con, dbOk);
      if ok {
        StaysHonest();
      }
    }

    /** A receiver drops many stored messages at once; the reply's status is 1 on success and 0
        on failure, the other way round than a single ack's. */
    method DeleteManyHandle(con: nat, reks: seq<nat>, msgtype: nat, dbOk: bool)
      requires Valid()
      modifies this`sent, store`ones, store`oneLog, store`groups, store`groupLog
      ensures Valid()
      ensures sent == old(sent) + [Letter(con, AckMany(reks, if dbOk || (msgtype != 1 && msgtype != 2) then 1 else 0))]
      ensures store.oneLog == if msgtype == 1 && dbOk then old(store.oneLog) + [OneTable.Delete(Keys(reks), con)]
                              else old(store.oneLog)
      ensures store.groupLog == if msgtype == 2 && dbOk then old(store.groupLog) + [GroupTables.DeleteUsers(Keys(reks), con)]
                                else old(store.groupLog)
      ensures msgtype == 1 && dbOk ==> forall k :: k in store.ones <==> k in old(store.ones) && !(k in reks && old(store.ones)[k].receiver == con)
      ensures forall k :: k in store.ones ==> k in old(store.ones) && store.ones[k] == old(store.ones)[k]
      ensures !(msgtype == 1 && dbOk) ==> store.ones == old(store.ones)
      ensures msgtype == 2 && dbOk ==> forall row :: row in store.groups.users <==> row in old(store.groups.users) && !(row.0 in reks && row.1 == con)
      ensures store.groups.messages == old(store.groups.messages) && (!(msgtype == 2 && dbOk) ==> store.groups == old(store.groups))
    {
      var ok := true;
      if msgtype == 1 {
        ok := DropOnes(reks, con, dbOk);
      } else if msgtype == 2 {
        ok := DropPairs(reks, con, dbOk);
      }
      sent := sent + [Letter(con, AckMany(reks, if ok then 1 else 0))];
    }

    // ---------- group messages ----------

    /** A client's group message. Parameters: the member list read from the cache (a set), the
        membership check, the server's clock, the luck of the two inserts, where users are
        recorded, and the servers this one can call. `transfers` are the members passed on, by
        server: one call for each. */
    method GorupMessageHandle(con: nat, msg: GroupMessage, now: nat, list: seq<nat>, member: bool, dbOk: (bool, bool),
                              located: map<nat, string>, comits: set<string>)
      returns (ok: bool, transfers: map<string, seq<nat>>)
      requires Valid() && Distinct(list)
      modifies this`sent, this`pushed, this`calls, store`groups, store`groupLog
      ensures Valid()
      ensures ok == (msg.sender == con && member && dbOk.0 && dbOk.1 && msg.rek !in old(store.groups.messages)
                     && Pairs(Site(con, connected, located), msg.rek, list) != [])
      ensures ok ==>
                store.groupLog == old(store.groupLog) + [GroupTables.CreateMessage(msg.(time := now))]
                                  + [GroupTables.CreateUsers(msg.rek, Pairs(Site(con, connected, located), msg.rek, list))]
      ensures !ok ==>
                store.groupLog == if msg.sender == con && member && dbOk.0 && msg.rek !in old(store.groups.messages)
                                  then old(store.groupLog) + [GroupTables.CreateMessage(msg.(time := now))] else old(store.groupLog)
      ensures ok ==> store.groups.messages == old(store.groups.messages)[msg.rek := msg.(time := now)]
      ensures ok ==> forall u :: u in list && u != con ==> BackedPair(msg.(time := now), u)
      ensures ok ==> forall u :: u in list && u != con ==> (msg.rek, u) in store.groups.users
      ensures ok ==>
                && pushed == old(pushed) + PushesFor(msg.(time := now), Bound(Site(con, connected, located), list, Here))
                && sent == old(sent) + [Letter(con, Ack(msg.rek, 0, 3))] + LettersFor(msg.(time := now), Bound(Site(con, connected, located), list, Here))
      ensures ok ==> Reached(con, msg.(time := now), list, connected, pushed[|old(pushed)|..], sent[|old(sent)| + 1..])
      ensures ok ==> PassedOn(con, list, connected, located, comits, transfers)
      ensures ok ==> forall s :: s in transfers ==> transfers[s] == Bound(Site(con, connected, located), list, At(s))
      ensures ok ==> old(calls) <= calls && GroupCalls(calls[|old(calls)|..], msg.(time := now), transfers)
      ensures !ok ==>
                && pushed == old(pushed) && calls == old(calls) && transfers == map[]
                && sent == if msg.sender == con then old(sent) + [Letter(con, Ack(msg.rek, 1, 3))] else old(sent)
    {
      ok, transfers := ServeGroup(con, msg.(time := now), list, member, dbOk, located, comits);
    }

    /** The handler once the server's clock is set in the message. */
    method ServeGroup(con: nat, m: GroupMessage, list: seq<nat>, member: bool, dbOk: (bool, bool),
                      located: map<nat, string>, comits: set<string>)
      returns (ok: bool, transfers: map<string, seq<nat>>)
      requires Valid() && Distinct(list)
      modifies this`sent, this`pushed, this`calls, store`groups, store`groupLog
      ensures Valid()
      ensures ok == (m.sender == con && member && dbOk.0 && dbOk.1 && m.rek !in old(store.groups.messages)
                     && Pairs(Site(con, connected, located), m.rek, list) != [])
      ensures ok ==>
                store.groupLog == old(store.groupLog) + [GroupTables.CreateMessage(m)]
                                  + [GroupTables.CreateUsers(m.rek, Pairs(Site(con, connected, located), m.rek, list))]
      ensures !ok ==>
                store.groupLog == if m.sender == con && member && dbOk.0 && m.rek !in old(store.groups.messages)
                                  then old(store.groupLog) + [GroupTables.CreateMessage(m)] else old(store.groupLog)
      ensures ok ==> store.groups.messages == old(store.groups.messages)[m.rek := m]
      ensures ok ==> forall u :: u in list && u != con ==> BackedPair(m, u)
      ensures ok ==> forall u :: u in list && u != con ==> (m.rek, u) in store.groups.users
      ensures ok ==>
                && pushed == old(pushed) + PushesFor(m, Bound(Site(con, connected, located), list, Here))
                && sent == old(sent) + [Letter(con, Ack(m.rek, 0, 3))] + LettersFor(m, Bound(Site(con, connected, located), list, Here))
      ensures ok ==> Reached(con, m, list, connected, pushed[|old(pushed)|..], sent[|old(sent)| + 1..])
      ensures ok ==> PassedOn(con, list, connected, located, comits, transfers)
      ensures ok ==> forall s :: s in transfers ==> transfers[s] == Bound(Site(con, connected, located), list, At(s))
      ensures ok ==> old(calls) <= calls && GroupCalls(calls[|old(calls)|..], m, transfers)
      ensures !ok ==>
                && pushed == old(pushed) && calls == old(calls) && transfers == map[]
                && sent == if m.sender == con then old(sent) + [Letter(con, Ack(m.rek, 1, 3))] else old(sent)
    {
      transfers := map[];
      var site := Site(con, connected, located);
      var local, remote;
      ok, local, remote := StoreGroup(con, m, site, list, member, dbOk);
      if ok {
        transfers := DeliverGroup(con, m, site, list, local, remote, comits);
      }
    }

    /** The handler up to its second insert. */
    method StoreGroup(con: nat, m: GroupMessage, site: Site, list: seq<nat>, member: bool, dbOk: (bool, bool))
      returns (ok: bool, local: seq<nat>, remote: map<string, seq<nat>>)
      requires Valid() && Distinct(list)
      modifies this`sent, store`groups, store`groupLog
      ensures Valid()
      ensures ok == (m.sender == con && member && dbOk.0 && dbOk.1 && m.rek !in old(store.groups.messages) && Pairs(site, m.rek, list) != [])
      ensures ok ==> store.groupLog == old(store.groupLog) + [GroupTables.CreateMessage(m)]
                                       + [GroupTables.CreateUsers(m.rek, Pairs(site, m.rek, list))]
      ensures !ok ==> store.groupLog == if m.sender == con && member && dbOk.0 && m.rek !in old(store.groups.messages)
                                        then old(store.groupLog) + [GroupTables.CreateMessage(m)] else old(store.groupLog)
      ensures ok ==> store.groups.messages == old(store.groups.messages)[m.rek := m]
      ensures ok ==> forall u :: u in list && u != site.sender ==> BackedPair(m, u) && (m.rek, u) in store.groups.users
      ensures ok ==> local == Bound(site, list, Here) && Remotes(site, list, remote)
      ensures sent == if !ok && m.sender == con then old(sent) + [Letter(con, Ack(m.rek, 1, 3))] else old(sent)
    {
      ok, local, remote := false, [], map[];
      var created := BeginGroup(con, m, member, dbOk.0);
      if created {
        ok, local, remote := PairUp(con, m, site, list, dbOk.1);
      }
    }

    /** Lines 111 to 140: check and insert the message. */
    method BeginGroup(con: nat, m: GroupMessage, member: bool, dbOk: bool) returns (created: bool)
      requires Valid()
      modifies this`sent, store`groups, store`groupLog
      ensures Valid() && created == (m.sender == con && member && dbOk && m.rek !in old(store.groups.messages))
      ensures store.groupLog == if created then old(store.groupLog) + [GroupTables.CreateMessage(m)] else old(store.groupLog)
      ensures created ==> Opened(m)
      ensures store.groups.messages == if created then old(store.groups.messages)[m.rek := m] else old(store.groups.messages)
      ensures sent == if m.sender == con && !created then old(sent) + [Letter(con, Ack(m.rek, ACK_SAVE_FAIL, GROUP_MESSAGE))] else old(sent)
    {
      if m.sender != con {
        return false;
      }
      created := false;
      if member {
        created := store.CreateGroupMessage(m, dbOk);
      }
      if created {
        StaysHonest();
      } else {
        SendAck(con, m.rek, ACK_SAVE_FAIL, GROUP_MESSAGE);
      }
    }

    /** The message is stored and waits for its pairs. */
    ghost predicate Opened(m: GroupMessage)
      reads store
    {
      m.rek in store.groups.open && m.rek in store.groups.messages && store.groups.messages[m.rek] == m
    }

    /** Lines 142 to 168: the fan-out loop and the insert of the pairs. */
    method PairUp(con: nat, m: GroupMessage, site: Site, list: seq<nat>, dbOk: bool)
      returns (ok: bool, local: seq<nat>, remote: map<string, seq<nat>>)
      requires Valid() && Distinct(list) && Opened(m)
      modifies this`sent, store`groups, store`groupLog
      ensures Valid() && ok == (dbOk && Pairs(site, m.rek, list) != [])
      ensures store.groupLog == if ok then old(store.groupLog) + [GroupTables.CreateUsers(m.rek, Pairs(site, m.rek, list))] else old(store.groupLog)
      ensures sent == if ok then old(sent) else old(sent) + [Letter(con, Ack(m.rek, ACK_SAVE_FAIL, GROUP_MESSAGE))]
      ensures local == Bound(site, list, Here) && Remotes(site, list, remote)
      ensures ok ==> forall u :: u in list && u != site.sender ==> BackedPair(m, u) && (m.rek, u) in store.groups.users
      ensures store.groups.messages == old(store.groups.messages)
    {
      var pairs;
      local, remote, pairs := Split(site, m.rek, list);
      ok := StorePairs(m, site, list, pairs, dbOk);
      if !ok {
        SendAck(con, m.rek, ACK_SAVE_FAIL, GROUP_MESSAGE);
      }
    }

    /** What follows the inserts: acknowledge, serve the local members, pass on to other servers. */
    method DeliverGroup(con: nat, m: GroupMessage, site: Site, list: seq<nat>,
                        local: seq<nat>, remote: map<string, seq<nat>>, comits: set<string>)
      returns (transfers: map<string, seq<nat>>)
      requires Valid() && Distinct(list) && local == Bound(site, list, Here) && Remotes(site, list, remote)
      requires forall u :: u in list && u != site.sender ==> BackedPair(m, u)
      modifies this`sent, this`pushed, this`calls
      ensures Valid()
      ensures old(pushed) <= pushed && old(sent) + [Letter(con, Ack(m.rek, 0, 3))] <= sent
      ensures Reached(site.sender, m, list, site.connected, pushed[|old(pushed)|..], sent[|old(sent)| + 1..])
      ensures PassedOn(site.sender, list, site.connected, site.located, comits, transfers)
      ensures pushed == old(pushed) + PushesFor(m, Bound(site, list, Here))
      ensures sent == old(sent) + [Letter(con, Ack(m.rek, ACK_SUCCESS, GROUP_MESSAGE))] + LettersFor(m, Bound(site, list, Here))
      ensures forall s :: s in transfers <==> s in comits && Bound(site, list, At(s)) != []
      ensures forall s :: s in transfers ==> transfers[s] == Bound(site, list, At(s))
      ensures old(calls) <= calls && GroupCalls(calls[|old(calls)|..], m, transfers)
    {
      SendAck(con, m.rek, ACK_SUCCESS, GROUP_MESSAGE);
      BoundMembers(site, list, Here);
      PushLocal(m, local);
      transfers := PassOn(m, site, list, remote, comits);
      ServedByName(m, site, list, comits, transfers);
      assert pushed[|old(pushed)|..] == PushesFor(m, Bound(site, list, Here));
      assert sent[|old(sent)| + 1..] == LettersFor(m, Bound(site, list, Here));
    }

    /** One call to each server that members are bound for and that can be called. */
    method PassOn(m: GroupMessage, site: Site, list: seq<nat>, remote: map<string, seq<nat>>, comits: set<string>)
      returns (transfers: map<string, seq<nat>>)
      requires Valid() && Remotes(site, list, remote) && forall u :: u in list && u != site.sender ==> BackedPair(m, u)
      modifies this`calls
      ensures Valid()
      ensures forall s :: s in transfers <==> s in comits && Bound(site, list, At(s)) != []
      ensures forall s :: s in transfers ==> transfers[s] == Bound(site, list, At(s))
      ensures old(calls) <= calls && GroupCalls(calls[|old(calls)|..], m, transfers)
    {
      transfers := map s | s in remote && s in comits :: remote[s];
      forall s ensures Bound(site, list, At(s)) != [] <==> s in remote {
        NobodyBound(site, list, At(s));
      }
      var made := CallsOf(m, transfers);
      forall c | c in made ensures BackedCall(c) {
        BoundMembers(site, list, At(c.server));
      }
      calls := calls + made;
      assert calls[|old(calls)|..] == made;
    }

    /** The second insert: one pair for each member but the sender. */
    method StorePairs(m: GroupMessage, site: Site, list: seq<nat>, pairs: seq<Row>, dbOk: bool) returns (ok: bool)
      requires Valid() && Distinct(list) && pairs == Pairs(site, m.rek, list)
      requires Opened(m)
      modifies store`groups, store`groupLog
      ensures Valid() && ok == (dbOk && pairs != [])
      ensures store.groupLog == if ok then old(store.groupLog) + [GroupTables.CreateUsers(m.rek, pairs)] else old(store.groupLog)
      ensures ok ==> forall u :: u in list && u != site.sender ==> BackedPair(m, u) && (m.rek, u) in store.groups.users
      ensures store.groups.messages == old(store.groups.messages)
    {
      PairsAreDistinct(site, m.rek, list);
      ok := store.CreateGroupUserMessage(m.rek, pairs, dbOk);
      if ok {
        var s := GroupTables.CreateUsers(m.rek, pairs);
        StaysHonest();
        forall u | u in list && u != site.sender ensures BackedPair(m, u) && (m.rek, u) in store.groups.users {
          PairedOnce(site, m.rek, list, u);
          assert (m.rek, u) in multiset(pairs);
          GroupTables.FannedOutGrows(old(store.groupLog), s, (m.rek, u));
        }
      }
    }

    /** Queue the message for each local member, then write it. */
    method PushLocal(m: GroupMessage, local: seq<nat>)
      requires Valid() && forall u :: u in local ==> BackedPair(m, u)
      modifies this`sent, this`pushed
      ensures Valid() && pushed == old(pushed) + PushesFor(m, local) && sent == old(sent) + LettersFor(m, local)
    {
      var i := 0;
      while i < |local|
        invariant 0 <= i <= |local| && Valid()
        invariant pushed == old(pushed) + PushesFor(m, local[..i])
        invariant sent == old(sent) + LettersFor(m, local[..i])
      {
        assert local[..i + 1][..i] == local[..i];
        pushed := pushed + [Push(m.rek, local[i], Group(m))];
        sent := sent + [Letter(local[i], Group(m))];
        i := i + 1;
      }
      assert local[..i] == local;
    }

    /** Another server passes on a group message for some of its users. The loop ends at the
        first one no longer connected; the rest keep their stored pairs. */
    method Grouptranfer(m: GroupMessage, receivers: seq<nat>)
      modifies this`sent, this`pushed
      ensures old(Valid()) && (forall u :: u in receivers ==> BackedPair(m, u)) ==> Valid()
      ensures var reached := ConnectedPrefix(receivers, connected);
              pushed == old(pushed) + PushesFor(m, reached) && sent == old(sent) + LettersFor(m, reached)
      ensures var n := |pushed| - |old(pushed)|;
              && 0 <= n <= |receivers| && |sent| == |old(sent)| + n && (n < |receivers| ==> receivers[n] !in connected)
              && forall k :: 0 <= k < n ==>
                   && receivers[k] in connected
                   && pushed[|old(pushed)| + k] == Push(m.rek, receivers[k], Group(m)) && sent[|old(sent)| + k] == Letter(receivers[k], Group(m))
    {
      var i := 0;
      while i < |receivers|
        invariant 0 <= i <= |receivers|
        invariant old(Valid()) && (forall u :: u in receivers ==> BackedPair(m, u)) ==> Valid()
        invariant forall k :: 0 <= k < i ==> receivers[k] in connected
        invariant pushed == old(pushed) + PushesFor(m, receivers[..i])
        invariant sent == old(sent) + LettersFor(m, receivers[..i])
      {
        if receivers[i] !in connected {
          PrefixEnds(receivers, connected, i);
          PushesAt(m, receivers[..i]);
          return;
        }
        assert receivers[..i + 1][..i] == receivers[..i];
        pushed := pushed + [Push(m.rek, receivers[i], Group(m))];
        sent := sent + [Letter(receivers[i], Group(m))];
        i := i + 1;
      }
      PrefixEnds(receivers, connected, i);
      PushesAt(m, receivers[..i]);
    }

    // ---------- pulls ----------

    /** The first page of what is stored for the connection's user; `order` is the order the
        database lists it in. Nothing is deleted. */
    method PullOneMessage(con: nat, order: seq<OneMessage>)
      requires Valid() && OneTable.Lists(order, store.ones, con)
      modifies this`sent
      ensures Valid()
      ensures |order| <= 1000 ==> sent == old(sent) + [Letter(con, PulledOnes(order))]
      ensures |order| > 1000 ==> sent == old(sent) + [Letter(con, PulledOnes(order[..1000]))]
    {
      var page := Collect(OneTable.FirstPage(order, ONE_PAGE));
      sent := sent + [Letter(con, PulledOnes(page))];
    }

    /** The first page of the join of the user's pairs with the messages: no row of it lacks
        its message. */
    method PullGroupMessage(con: nat)
      requires Valid()
      modifies this`sent
      ensures Valid()
      ensures var rows := OneTable.FirstPage(GroupTables.Joined(store.groups, store.groups.users, con), GROUP_PAGE);
              && sent == old(sent) + [Letter(con, PulledGroups(rows))]
              && (forall p :: p in rows ==> (p.0, con) in store.groups.users && p.0 in store.groups.messages
                                            && p.1 == Some(store.groups.messages[p.0]))
              && |rows| <= 10000 && Distinct(rows)
              && (|rows| < 10000 ==> forall rek :: (rek, con) in store.groups.users ==>
                    rek in store.groups.messages && (rek, Some(store.groups.messages[rek])) in rows)
    {
      var joined := GroupTables.Joined(store.groups, store.groups.users, con);
      var rows := Collect(OneTable.FirstPage(joined, GROUP_PAGE));
      sent := sent + [Letter(con, PulledGroups(rows))];
      PulledRowsAreWhole(con);
    }

    lemma PulledRowsAreWhole(con: nat)
      requires Valid()
      ensures forall p :: p in OneTable.FirstPage(GroupTables.Joined(store.groups, store.groups.users, con), GROUP_PAGE) ==>
                (p.0, con) in store.groups.users && p.0 in store.groups.messages && p.1 == Some(store.groups.messages[p.0])
      ensures forall rek :: (rek, con) in store.groups.users ==> rek in store.groups.messages
      ensures Distinct(OneTable.FirstPage(GroupTables.Joined(store.groups, store.groups.users, con), GROUP_PAGE))
      ensures |OneTable.FirstPage(GroupTables.Joined(store.groups, store.groups.users, con), GROUP_PAGE)| < 10000 ==>
                forall rek :: (rek, con) in store.groups.users ==>
                  (rek, Some(store.groups.messages[rek])) in OneTable.FirstPage(GroupTables.Joined(store.groups, store.groups.users, con), GROUP_PAGE)
    {
      GroupTables.ReachableSound(store.groupLog);
      GroupTables.JoinIsComplete(store.groups, store.groups.users, con);
      var joined := GroupTables.Joined(store.groups, store.groups.users, con);
      assert forall p :: p in OneTable.FirstPage(joined, GROUP_PAGE) ==> p in joined;
    }

    // ---------- notifications ----------

    /** The first half of `PullNotifie`: read the list and hand it to the connection. */
    method PullNotifieSend(con: nat) returns (batch: set<Notifies.Notifie>)
      requires Valid()
      modifies this`sent, store`notes, store`noteLog
      ensures Valid() && batch == Notifies.ListOf(old(store.notes), con) && batch <= store.notes.handed
      ensures forall n :: n in batch <==> n.id in store.notes.table && store.notes.table[n.id] == n && n.uid == con
      ensures store.notes.table == old(store.notes.table)
      ensures sent == old(sent) + [Letter(con, Notices(batch))]
      ensures store.noteLog == old(store.noteLog) + [Notifies.Write(con, batch)]
    {
      batch := Notifies.ListOf(store.notes, con);
      Notifies.NoneForgotten(store.noteLog);
      assert store.noteLog[..|store.noteLog|] == store.noteLog;
      Notifies.PullMayContinue(store.noteLog, |store.noteLog|, con);
      store.HandOver(con, batch);
      sent := sent + [Letter(con, Notices(batch))];
    }

    /** The second half: delete what was read, whatever happened since it was handed over. */
    method PullNotifieDelete(batch: set<Notifies.Notifie>, dbOk: bool)
      requires Valid() && batch <= store.notes.handed
      modifies store`notes, store`noteLog
      ensures Valid()
      ensures store.noteLog == if dbOk then old(store.noteLog) + [Notifies.Delete(Notifies.Ids(batch))] else old(store.noteLog)
      ensures dbOk ==> forall id :: id in store.notes.table <==> id in old(store.notes.table) && old(store.notes.table)[id] !in batch
      ensures !dbOk ==> store.notes.table == old(store.notes.table)
    {
      Notifies.NoneForgotten(store.noteLog);
      var ok := store.DeleteNotifieList(Notifies.Ids(batch), dbOk);
    }

    /** A friend request was agreed to: tell the asker now, or store it for the next pull. */
    method FriendAgree(uid: nat, body: string, dbOk: bool)
      requires Valid()
      modifies this`sent, store`notes, store`noteLog, store`nextId
      ensures Valid()
      ensures uid in connected ==> sent == old(sent) + [Letter(uid, Agree(body))] && store.noteLog == old(store.noteLog)
      ensures uid !in connected ==>
                sent == old(sent) &&
                store.noteLog == if dbOk then old(store.noteLog) + [Notifies.Create(Notifies.Notifie(old(store.nextId), uid, FRIEND_AGREE, body))]
                                 else old(store.noteLog)
      ensures uid !in connected && dbOk ==>
                && old(store.nextId) !in old(store.notes.table)
                && store.notes.table == old(store.notes.table)[old(store.nextId) := Notifies.Notifie(old(store.nextId), uid, 12, body)]
      ensures uid in connected || !dbOk ==> store.notes == old(store.notes)
    {
      Notifies.NoneForgotten(store.noteLog);
      if uid in connected {
        sent := sent + [Letter(uid, Agree(body))];
      } else {
        var ok := store.CreateNotifie(uid, FRIEND_AGREE, body, dbOk);
      }
    }
  }

  /** Wherever in a log the two inserts of a group message are: a member other than the sender
      that has not claimed its copy since has its pair stored, next to the message itself. */
  lemma FanOutIsStored(log: seq<GroupTables.Step>, i: nat, j: nat, m: GroupMessage, site: Site, list: seq<nat>, u: nat)
    requires GroupTables.AllEnabled(log) && i < j < |log|
    requires log[i] == GroupTables.CreateMessage(m) && m.rek !in GroupTables.Replay(log[..i]).messages
    requires log[j] == GroupTables.CreateUsers(m.rek, Pairs(site, m.rek, list))
    requires u in list && u != site.sender
    requires forall k :: j < k < |log| ==> !GroupTables.Claims(log[k], (m.rek, u))
    ensures var t := GroupTables.Replay(log); (m.rek, u) in t.users && m.rek in t.messages && t.messages[m.rek] == m
  {
    PairedOnce(site, m.rek, list, u);
    assert (m.rek, u) in multiset(Pairs(site, m.rek, list));
    GroupTables.NothingLost(log, j, (m.rek, u));
    assert log[..i + 1][..i] == log[..i];
    GroupTables.FannedOutStays(log[..i + 1], log[..j], (m.rek, u));
  }

  /** The loop of the pulls: append entry by entry. */
  method Collect<T>(messages: seq<T>) returns (page: seq<T>)
    ensures page == messages
  {
    page := [];
    for i := 0 to |messages|
      invariant page == messages[..i]
    {
      page := page + [messages[i]];
    }
  }

  /** `cs` are the calls that pass `m` on to the members of `transfers`, one for each server. */
  ghost predicate GroupCalls(cs: seq<Call>, m: GroupMessage, transfers: map<string, seq<nat>>) {
    && |cs| == |transfers| && (forall s :: s in transfers ==> ForwardGroup(s, m, transfers[s]) in cs)
    && forall c :: c in cs ==> c.ForwardGroup? && c.server in transfers && c == ForwardGroup(c.server, m, transfers[c.server])
  }

  lemma CallOne(made: seq<Call>, m: GroupMessage, transfers: map<string, seq<nat>>, todo: set<string>, s: string)
    requires s in todo && todo <= transfers.Keys && GroupCalls(made, m, transfers - todo)
    ensures GroupCalls(made + [ForwardGroup(s, m, transfers[s])], m, transfers - (todo - {s}))
  {
    assert transfers - (todo - {s}) == (transfers - todo)[s := transfers[s]];
  }

  /** The loop over the servers, in the map's own order. */
  method CallsOf(m: GroupMessage, transfers: map<string, seq<nat>>) returns (made: seq<Call>)
    ensures GroupCalls(made, m, transfers)
  {
    made := [];
    var todo := transfers.Keys;
    while todo != {}
      invariant todo <= transfers.Keys && GroupCalls(made, m, transfers - todo)
      decreases todo
    {
      var s :| s in todo;
      CallOne(made, m, transfers, todo, s);
      made := made + [ForwardGroup(s, m, transfers[s])];
      todo := todo - {s};
    }
    assert transfers - {} == transfers;
  }

  function PushesFor(m: GroupMessage, users: seq<nat>): seq<Push> {
    if users == [] then [] else
      PushesFor(m, users[..|users| - 1]) + [Push(m.rek, users[|users| - 1], Group(m))]
  }

  function LettersFor(m: GroupMessage, users: seq<nat>): seq<Letter> {
    if users == [] then [] else
      LettersFor(m, users[..|users| - 1]) + [Letter(users[|users| - 1], Group(m))]
  }

  lemma {:induction false} PushesAt(m: GroupMessage, users: seq<nat>)
    ensures |PushesFor(m, users)| == |users| == |LettersFor(m, users)|
    ensures forall i :: 0 <= i < |users| ==>
              PushesFor(m, users)[i] == Push(m.rek, users[i], Group(m)) && LettersFor(m, users)[i] == Letter(users[i], Group(m))
  {
    if users != [] {
      PushesAt(m, users[..|users| - 1]);
    }
  }

  /** Every connected member but the sender is queued for and written to just once, nobody else is. */
  ghost predicate Reached(sender: nat, m: GroupMessage, list: seq<nat>, connected: set<nat>, pushes: seq<Push>, letters: seq<Letter>) {
    && Distinct(pushes) && Distinct(letters)
    && (forall p :: p in pushes <==> p.receiver in list && p.receiver != sender && p.receiver in connected && p == Push(m.rek, p.receiver, Group(m)))
    && (forall l :: l in letters <==> l.to in list && l.to != sender && l.to in connected && l == Letter(l.to, Group(m)))
  }

  /** Every other member is passed on once to the server it is recorded on, if that can be called. */
  ghost predicate PassedOn(sender: nat, list: seq<nat>, connected: set<nat>, located: map<nat, string>, comits: set<string>,
                           transfers: map<string, seq<nat>>) {
    && (forall s :: s in transfers ==> s in comits && transfers[s] != [] && Distinct(transfers[s]))
    && (forall s, u :: s in transfers && u in transfers[s] ==>
          u in list && u != sender && u !in connected && u in located && located[u] == s)
    && (forall u :: u in list && u != sender && u !in connected && u in located && located[u] in comits ==>
          located[u] in transfers && u in transfers[located[u]])
  }

  lemma ServedByName(m: GroupMessage, site: Site, list: seq<nat>, comits: set<string>, transfers: map<string, seq<nat>>)
    requires Distinct(list)
    requires forall s :: s in transfers <==> s in comits && Bound(site, list, At(s)) != []
    requires forall s :: s in transfers ==> transfers[s] == Bound(site, list, At(s))
    ensures var here := Bound(site, list, Here);
            Reached(site.sender, m, list, site.connected, PushesFor(m, here), LettersFor(m, here))
    ensures PassedOn(site.sender, list, site.connected, site.located, comits, transfers)
  {
    ReachedByName(m, site, list);
    forall s | s in transfers ensures Distinct(transfers[s]) {
      BoundIsDistinct(site, list, At(s));
    }
    forall s, u | s in transfers && u in transfers[s]
      ensures u in list && u != site.sender && u !in site.connected && u in site.located && site.located[u] == s
    {
      assert transfers[s] == Bound(site, list, At(s));
      BoundMembers(site, list, At(s));
    }
    forall u | u in list && u != site.sender && u !in site.connected && u in site.located && site.located[u] in comits
      ensures site.located[u] in transfers && u in transfers[site.located[u]]
    {
      var s := site.located[u];
      BoundMembers(site, list, At(s));
      assert Bound(site, list, At(s)) != [] && transfers[s] == Bound(site, list, At(s));
    }
  }

  lemma ReachedByName(m: GroupMessage, site: Site, list: seq<nat>)
    requires Distinct(list)
    ensures var here := Bound(site, list, Here);
            Reached(site.sender, m, list, site.connected, PushesFor(m, here), LettersFor(m, here))
  {
    var here := Bound(site, list, Here);
    BoundIsDistinct(site, list, Here);
    PushesAt(m, here);
    var pushes, letters := PushesFor(m, here), LettersFor(m, here);
    forall p: Push
      ensures p in pushes <==> p.receiver in list && p.receiver != site.sender && p.receiver in site.connected && p == Push(m.rek, p.receiver, Group(m))
    {
      WhereBound(site, list, p.receiver);
      if p.receiver in here && p == Push(m.rek, p.receiver, Group(m)) {
        var i :| 0 <= i < |here| && here[i] == p.receiver;
        assert pushes[i] == p;
      }
    }
    forall l: Letter
      ensures l in letters <==> l.to in list && l.to != site.sender && l.to in site.connected && l == Letter(l.to, Group(m))
    {
      WhereBound(site, list, l.to);
      if l.to in here && l == Letter(l.to, Group(m)) {
        var i :| 0 <= i < |here| && here[i] == l.to;
        assert letters[i] == l;
      }
    }
  }

  /** The receivers before the first one not connected. */
  function ConnectedPrefix(receivers: seq<nat>, connected: set<nat>): seq<nat> {
    if receivers == [] || receivers[0] !in connected then [] else [receivers[0]] + ConnectedPrefix(receivers[1..], connected)
  }

  lemma {:induction false} PrefixEnds(receivers: seq<nat>, connected: set<nat>, i: nat)
    requires i <= |receivers| && forall k :: 0 <= k < i ==> receivers[k] in connected
    requires i < |receivers| ==> receivers[i] !in connected
    ensures ConnectedPrefix(receivers, connected) == receivers[..i]
  {
    if i > 0 {
      PrefixEnds(receivers[1..], connected, i - 1);
      assert receivers[..i] == [receivers[0]] + receivers[1..][..i - 1];
    }
  }

  /** The message is stored for its receiver, or was removed by a request of its receiver. */
  ghost predicate OneKept(store: Store, m: OneMessage)
    reads store
  {
    OneTable.Held(store.ones, m) || OneTable.Removed(store.oneLog, m) > 0
  }

  ghost predicate GroupKept(store: Store, g: GroupMessage, u: nat)
    reads store
  {
    || ((g.rek, u) in store.groups.users && g.rek in store.groups.messages && store.groups.messages[g.rek] == g)
    || GroupTables.Removed(store.groupLog, (g.rek, u)) > 0
  }

  /** Nothing the server queued for retries can be lost by giving up its retries: the message is
      still stored for the receiver, or was removed by a request of that receiver. */
  lemma QueuedIsStoredOrRemoved(s: Server, i: nat)
    requires s.Valid() && i < |s.pushed|
    ensures match s.pushed[i].frame
            case One(m) => m.receiver == s.pushed[i].receiver && OneKept(s.store, m)
            case Group(g) => GroupKept(s.store, g, s.pushed[i].receiver)
            case _ => false
  {
    var p := s.pushed[i];
    assert s.BackedPush(p);
    if p.frame.One? {
      OneTable.AcceptedIsHeldOrRemoved(s.store.oneLog, p.frame.m);
    } else {
      GroupTables.Conservation(s.store.groupLog, (p.frame.g.rek, p.receiver));
    }
  }

  /** Nor can anything be lost that it passed on, whether the call was answered or not. */
  lemma ForwardedIsStoredOrRemoved(s: Server, i: nat)
    requires s.Valid() && i < |s.calls|
    ensures match s.calls[i]
            case Forward(_, m) => OneKept(s.store, m)
            case ForwardGroup(_, g, receivers) => forall u :: u in receivers ==> GroupKept(s.store, g, u)
  {
    var c := s.calls[i];
    assert s.BackedCall(c);
    if c.Forward? {
      OneTable.AcceptedIsHeldOrRemoved(s.store.oneLog, c.m);
    } else {
      forall u | u in c.receivers ensures GroupKept(s.store, c.g, u) {
        GroupTables.Conservation(s.store.groupLog, (c.g.rek, u));
      }
    }
  }
}
