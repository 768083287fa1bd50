/** Several connection servers on one message database: what a handler of one server does, it may
    not break for any other. */
module Clusters {
  import opened Collections
  import opened SqlRows
  import opened Stores
  import opened Handles
  import opened FanOut
  import OneTable
  import GroupTables
  import Notifies

  /** The servers share the store, and each has queued and passed on only what was accepted. */
  ghost predicate Cluster(servers: set<Server>, store: Store)
    reads servers, store
  {
    store.Valid() && forall s :: s in servers ==> s.store == store && s.Honest()
  }

  /** Something happens at a server: a client or another server asks for it, or a handler goes on.
      A parameter the handler does not determine says how it turns out. */
  datatype Request =
    | Connects(uid: nat)
    | Disconnects(uid: nat)
    | OneToOne(con: nat, msg: OneMessage, friend: bool, dbOk: bool)
    | ToGroup(con: nat, post: GroupMessage, now: nat, list: seq<nat>, member: bool, dbOk: bool)
    | GoesOn(i: nat, home: Option<string>, located: map<nat, string>, comits: set<string>, dbOk: bool)
    | Acks(con: nat, rek: nat, msgtype: nat, dbOk: bool)
    | DropsMany(con: nat, reks: seq<nat>, msgtype: nat, dbOk: bool)
    | IsCalled(from: Server, i: nat)  // the call that server recorded at this place arrives, perhaps again
    | PullsOnes(con: nat, order: seq<OneMessage>)
    | PullsGroups(con: nat)
    | PullsNotes(con: nat)
    | DropsNotes(batch: set<Notifies.Notifie>, dbOk: bool)
    | Agrees(uid: nat, body: string, dbOk: bool)

  /** What a handler that has made a statement has still to do. */
  datatype Work =
    | Finished
    | Delivers(s: Server, msg: OneMessage)
    | PairsUp(s: Server, con: nat, post: GroupMessage, list: seq<nat>)
    | PassesOn(s: Server, con: nat, post: GroupMessage, site: Site, list: seq<nat>, local: seq<nat>, remote: map<string, seq<nat>>)

  /** The rest of the handler finds what it left. */
  ghost predicate Sound(w: Work, store: Store)
    reads store
  {
    match w
    case Finished => true
    case Delivers(s, msg) => s.store == store && s.Backed(msg)
    case PairsUp(s, _, post, list) => s.store == store && s.Opened(post) && Distinct(list)
    case PassesOn(s, _, post, site, list, local, remote) =>
      && s.store == store && Distinct(list) && local == Bound(site, list, Here) && Remotes(site, list, remote)
      && forall u :: u in list && u != site.sender ==> s.BackedPair(post, u)
  }

  /** A cluster with handlers between their statements; each open group message has one of them. */
  ghost predicate InFlight(servers: set<Server>, store: Store, work: seq<Work>)
    reads servers, store
  {
    && Cluster(servers, store)
    && (forall i :: 0 <= i < |work| ==> Sound(work[i], store) && (!work[i].Finished? ==> work[i].s in servers))
    && (forall i, j :: 0 <= i < j < |work| && work[i].PairsUp? && work[j].PairsUp? ==> work[i].post.rek != work[j].post.rek)
  }

  /** Any statements leave the rest of a handler sound that do not pair up its message. */
  twostate lemma WorkStays(w: Work)
    requires !w.Finished? && w.s.store.Grown() && (w.PairsUp? ==> w.post.rek in w.s.store.groups.open)
    ensures old(Sound(w, w.s.store)) ==> Sound(w, w.s.store)
  {
    w.s.StaysBacked();
    if w.PairsUp? {
      GroupTables.FannedOutStays(old(w.s.store.groupLog), w.s.store.groupLog, (w.post.rek, 0));
    }
  }

  // ---------- what happens ----------

  /** The first part of a handler: the message is stored and the rest follows exactly if it may be;
      the own sender is told. */
  twostate predicate Began(s: Server, r: Request, w: Work)
    reads s, s.store
  {
    if r.OneToOne? then
      var ok := r.msg.sender == r.con && r.friend && r.dbOk && r.msg.rek !in old(s.store.ones);
      && w == (if ok then Delivers(s, r.msg) else Finished)
      && s.store.ones == (if ok then old(s.store.ones)[r.msg.rek := r.msg] else old(s.store.ones))
      && s.sent == if r.msg.sender != r.con then old(s.sent)
                   else old(s.sent) + [Letter(r.con, Ack(r.msg.rek, if ok then 0 else 1, if r.friend then 2 else 3))]
    else if r.ToGroup? && Distinct(r.list) then
      var post := r.post.(time := r.now);
      var ok := post.sender == r.con && r.member && r.dbOk && post.rek !in old(s.store.groups.messages);
      && w == (if ok then PairsUp(s, r.con, post, r.list) else Finished)
      && s.store.groups.messages == (if ok then old(s.store.groups.messages)[post.rek := post] else old(s.store.groups.messages))
      && s.sent == if post.sender != r.con || ok then old(s.sent) else old(s.sent) + [Letter(r.con, Ack(post.rek, 1, 3))]
    else w.Finished?
  }

  /** The later parts: an accepted message is queued and written, or passed on; the pairs of a group
      message are stored; its members are reached or passed on. */
  twostate predicate WentOn(w: Work, r: Request, rest: Work)
    requires r.GoesOn?
    reads if w.Finished? then {} else {w.s, w.s.store}
  {
    match w
    case Finished => rest.Finished?
    case Delivers(s, msg) =>
      && rest.Finished?
      && (if msg.receiver in s.connected
          then s.sent == old(s.sent) + [Letter(msg.receiver, One(msg))] && s.pushed == old(s.pushed) + [Push(msg.rek, msg.receiver, One(msg))]
          else s.calls == if r.home.Some? && r.home.value in r.comits then old(s.calls) + [Forward(r.home.value, msg)] else old(s.calls))
    case PairsUp(s, con, post, list) =>
      var ok := r.dbOk && exists u :: u in list && u != con;
      && rest.Finished? == !ok
      && (ok ==>
            && rest.PassesOn? && rest.s == s && rest.con == con && rest.post == post && rest.list == list
            && rest.site == Site(con, old(s.connected), r.located)
            && forall u :: u in list && u != con ==> (post.rek, u) in s.store.groups.users)
      && s.sent == if ok then old(s.sent) else old(s.sent) + [Letter(con, Ack(post.rek, 1, 3))]
    case PassesOn(s, con, post, site, list, _, _) =>
      && rest.Finished? && old(s.pushed) <= s.pushed && old(s.sent) + [Letter(con, Ack(post.rek, 0, 3))] <= s.sent
      && Reached(site.sender, post, list, site.connected, s.pushed[|old(s.pushed)|..], s.sent[|old(s.sent)| + 1..])
      && old(s.calls) <= s.calls
      && forall u :: u in list && u != site.sender && u !in site.connected && u in site.located && site.located[u] in r.comits ==>
           exists c :: c in s.calls[|old(s.calls)|..] && c.ForwardGroup? && c.server == site.located[u] && c.g == post && u in c.receivers
  }

  /** The user's own stored copies with these ids are gone from the table of this kind (1 or 2). */
  twostate predicate Dropped(s: Server, con: nat, reks: set<nat>, kind: nat)
    reads s, s.store
  {
    && (forall k :: k in s.store.ones <==> k in old(s.store.ones) && !(kind == 1 && k in reks && old(s.store.ones)[k].receiver == con))
    && (forall row :: row in s.store.groups.users <==> row in old(s.store.groups.users) && !(kind == 2 && row.0 in reks && row.1 == con))
  }

  /** The requests that are done with at once: what the server records and what the tables hold. */
  twostate predicate Done(s: Server, r: Request)
    reads s, s.store
  {
    match r
    case Connects(uid) => s.connected == old(s.connected) + {uid} && s.sent == old(s.sent)
    case Disconnects(uid) => s.connected == old(s.connected) - {uid} && s.sent == old(s.sent)
    case Acks(con, rek, msgtype, dbOk) =>
      && s.acked == old(s.acked) + [(rek, con)] && s.sent == old(s.sent)
      && Dropped(s, con, {rek}, if dbOk then msgtype else 0)
    case DropsMany(con, reks, msgtype, dbOk) =>
      && s.sent == old(s.sent) + [Letter(con, AckMany(reks, if dbOk || (msgtype != 1 && msgtype != 2) then 1 else 0))]
      && Dropped(s, con, set k | k in reks, if dbOk then msgtype else 0)
    case PullsOnes(con, order) =>
      OneTable.Lists(order, old(s.store.ones), con) ==>
        s.sent == old(s.sent) + [Letter(con, PulledOnes(if |order| <= 1000 then order else order[..1000]))]
    case PullsGroups(con) =>
      |s.sent| == |old(s.sent)| + 1 && old(s.sent) <= s.sent &&
      var l := s.sent[|old(s.sent)|];
      && l.to == con && l.frame.PulledGroups?
      && (|l.frame.rows| < 10000 ==> forall rek :: (rek, con) in s.store.groups.users ==>
            rek in s.store.groups.messages && (rek, Some(s.store.groups.messages[rek])) in l.frame.rows)
    case PullsNotes(con) =>
      |s.sent| == |old(s.sent)| + 1 && old(s.sent) <= s.sent &&
      var l := s.sent[|old(s.sent)|];
      && l.to == con && l.frame.Notices?
      && forall n :: n in l.frame.batch <==> n.id in s.store.notes.table && s.store.notes.table[n.id] == n && n.uid == con
    case DropsNotes(batch, dbOk) =>
      dbOk && batch <= old(s.store.notes.handed) ==>
        forall id :: id in s.store.notes.table <==> id in old(s.store.notes.table) && old(s.store.notes.table)[id] !in batch
    case Agrees(uid, body, dbOk) =>
      if uid in s.connected then s.sent == old(s.sent) + [Letter(uid, Agree(body))]
      else dbOk ==> exists id :: id !in old(s.store.notes.table) && id in s.store.notes.table
                                 && s.store.notes.table[id] == Notifies.Notifie(id, uid, 12, body)
    case _ => true
  }

  /** A call is answered: the members still connected are queued for and written to. */
  twostate predicate Replied(s: Server, c: Call)
    reads s
  {
    match c
    case Forward(_, m) =>
      if m.receiver in s.connected
      then s.sent == old(s.sent) + [Letter(m.receiver, One(m))] && s.pushed == old(s.pushed) + [Push(m.rek, m.receiver, One(m))]
      else s.sent == old(s.sent) && s.pushed == old(s.pushed)
    case ForwardGroup(_, g, receivers) =>
      var n := |s.pushed| - |old(s.pushed)|;
      && 0 <= n <= |receivers| && |s.sent| == |old(s.sent)| + n && (n < |receivers| ==> receivers[n] !in s.connected)
      && forall k :: 0 <= k < n ==>
           && receivers[k] in s.connected
           && s.pushed[|old(s.pushed)| + k] == Push(g.rek, receivers[k], Group(g)) && s.sent[|old(s.sent)| + k] == Letter(receivers[k], Group(g))
  }

  /** The first part of a handler, up to its first statement. */
  method Begin(s: Server, r: Request) returns (w: Work)
    requires s.Valid()
    modifies s, s.store
    ensures s.Valid() && s.store.Grown() && Sound(w, s.store) && (!w.Finished? ==> w.s == s)
    ensures old(s.store.groups.open) <= s.store.groups.open
    ensures w.PairsUp? ==> w.post.rek !in old(s.store.groups.open)
    ensures Began(s, r, w)
  {
    w := Finished;
    if r.OneToOne? {
      var ok := s.Accept(r.con, r.msg, r.friend, r.dbOk);
      if ok {
        w := Delivers(s, r.msg);
      }
    } else if r.ToGroup? && Distinct(r.list) {
      var post := r.post.(time := r.now);
      GroupTables.ReachableSound(s.store.groupLog);
      var created := s.BeginGroup(r.con, post, r.member, r.dbOk);
      if created {
        GroupTables.ApplyLast(old(s.store.groupLog), GroupTables.CreateMessage(post));
        w := PairsUp(s, r.con, post, r.list);
      }
    }
  }

  /** The next part. */
  method GoOn(w: Work, r: Request) returns (rest: Work)
    requires r.GoesOn? && !w.Finished? && w.s.Valid() && Sound(w, w.s.store)
    modifies w.s, w.s.store
    ensures w.s.Valid() && w.s.store.Grown() && Sound(rest, w.s.store) && !rest.PairsUp? && (!rest.Finished? ==> rest.s == w.s)
    ensures old(w.s.store.groups.open) - (if w.PairsUp? then {w.post.rek} else {}) <= w.s.store.groups.open
    ensures WentOn(w, r, rest)
  {
    rest := Finished;
    match w
    case Delivers(s, msg) =>
      s.Deliver(msg, r.home, r.comits);
    case PairsUp(s, con, post, list) =>
      rest := GoOnPairing(s, con, post, list, r);
    case PassesOn(s, con, post, site, list, local, remote) =>
      var transfers := s.DeliverGroup(con, post, site, list, local, remote, r.comits);
      MembersPassedOn(post, site, list, r.comits, transfers, s.calls[|old(s.calls)|..]);
  }

  method GoOnPairing(s: Server, con: nat, post: GroupMessage, list: seq<nat>, r: Request) returns (rest: Work)
    requires r.GoesOn? && s.Valid() && s.Opened(post) && Distinct(list)
    modifies s, s.store
    ensures s.Valid() && s.store.Grown() && Sound(rest, s.store) && !rest.PairsUp? && (!rest.Finished? ==> rest.s == s)
    ensures old(s.store.groups.open) - {post.rek} <= s.store.groups.open
    ensures WentOn(PairsUp(s, con, post, list), r, rest)
  {
    rest := Finished;
    var site := Site(con, s.connected, r.located);
    SomePair(site, post.rek, list);
    var ok, local, remote := s.PairUp(con, post, site, list, r.dbOk);
    if ok {
      GroupTables.ApplyLast(old(s.store.groupLog), GroupTables.CreateUsers(post.rek, Pairs(site, post.rek, list)));
      rest := PassesOn(s, con, post, site, list, local, remote);
    }
  }

  lemma MembersPassedOn(post: GroupMessage, site: Site, list: seq<nat>, comits: set<string>, transfers: map<string, seq<nat>>, made: seq<Call>)
    requires PassedOn(site.sender, list, site.connected, site.located, comits, transfers) && GroupCalls(made, post, transfers)
    ensures forall u :: u in list && u != site.sender && u !in site.connected && u in site.located && site.located[u] in comits ==>
              exists c :: c in made && c.ForwardGroup? && c.server == site.located[u] && c.g == post && u in c.receivers
  {
    forall u | u in list && u != site.sender && u !in site.connected && u in site.located && site.located[u] in comits
      ensures exists c :: c in made && c.ForwardGroup? && c.server == site.located[u] && c.g == post && u in c.receivers
    {
      var s := site.located[u];
      assert ForwardGroup(s, post, transfers[s]) in made;
    }
  }

  /** Requests that delete from the message tables. */
  method Write(s: Server, r: Request)
    requires s.Valid()
    modifies s, s.store
    ensures s.Valid() && s.store.Grown() && s.store.groups.open == old(s.store.groups.open)
    ensures (r.Acks? || r.DropsMany?) ==> Done(s, r)
  {
    match r
    case Acks(con, rek, msgtype, dbOk) =>
      WriteAck(s, con, rek, msgtype, dbOk);
    case DropsMany(con, reks, msgtype, dbOk) =>
      WriteMany(s, con, reks, msgtype, dbOk);
    case _ =>
  }

  method WriteAck(s: Server, con: nat, rek: nat, msgtype: nat, dbOk: bool)
    requires s.Valid()
    modifies s, s.store
    ensures s.Valid() && s.store.Grown() && s.store.groups.open == old(s.store.groups.open)
    ensures Done(s, Acks(con, rek, msgtype, dbOk))
  {
    GroupTables.ApplyLast(s.store.groupLog, GroupTables.DeleteUsers({rek}, con));
    s.AckMesageHandle(con, rek, msgtype, dbOk);
  }

  method WriteMany(s: Server, con: nat, reks: seq<nat>, msgtype: nat, dbOk: bool)
    requires s.Valid()
    modifies s, s.store
    ensures s.Valid() && s.store.Grown() && s.store.groups.open == old(s.store.groups.open)
    ensures Done(s, DropsMany(con, reks, msgtype, dbOk))
  {
    GroupTables.ApplyLast(s.store.groupLog, GroupTables.DeleteUsers(Keys(reks), con));
    s.DeleteManyHandle(con, reks, msgtype, dbOk);
  }

  /** Requests that leave the message tables alone. */
  method Read(s: Server, r: Request)
    requires s.Valid()
    modifies s, s.store`notes, s.store`noteLog, s.store`nextId
    ensures s.Valid() && (!r.Acks? && !r.DropsMany? ==> Done(s, r))
  {
    match r
    case Connects(uid) =>
      s.connected := s.connected + {uid};
    case Disconnects(uid) =>
      s.connected := s.connected - {uid};
    case PullsOnes(con, order) =>
      if OneTable.Lists(order, s.store.ones, con) {
        s.PullOneMessage(con, order);
      }
    case PullsGroups(con) =>
      s.PullGroupMessage(con);
    case PullsNotes(con) =>
      var batch := s.PullNotifieSend(con);
    case DropsNotes(batch, dbOk) =>
      if batch <= s.store.notes.handed {
        s.PullNotifieDelete(batch, dbOk);
      }
    case Agrees(uid, body, dbOk) =>
      s.FriendAgree(uid, body, dbOk);
    case _ =>
  }

  /** A call of another server arrives. */
  method Answer(s: Server, c: Call)
    requires s.Valid() && s.BackedCall(c)
    modifies s`sent, s`pushed
    ensures s.Valid() && Replied(s, c)
  {
    match c
    case Forward(_, m) =>
      s.Transfer(m);
    case ForwardGroup(_, g, receivers) =>
      s.Grouptranfer(g, receivers);
  }

  lemma RecordedIsBacked(servers: set<Server>, store: Store, s: Server, from: Server, i: nat)
    requires Cluster(servers, store) && s in servers && from in servers && i < |from.calls|
    ensures s.BackedCall(from.calls[i])
  {
    assert from.BackedCall(from.calls[i]);
  }

  method Act(servers: set<Server>, store: Store, s: Server, r: Request)
    requires Cluster(servers, store) && s in servers && (r.IsCalled? ==> r.from in servers)
    modifies s, store
    ensures s.Honest() && store.Grown() && store.groups.open == old(store.groups.open)
    ensures Done(s, r) && (r.IsCalled? && r.i < |old(r.from.calls)| ==> Replied(s, old(r.from.calls[r.i])))
  {
    if r.Acks? || r.DropsMany? {
      Write(s, r);
    } else if !r.IsCalled? {
      Read(s, r);
    } else if r.i < |r.from.calls| {
      RecordedIsBacked(servers, store, s, r.from, r.i);
      Answer(s, r.from.calls[r.i]);
    }
  }

  method Start(servers: set<Server>, store: Store, work: seq<Work>, s: Server, r: Request) returns (next: seq<Work>)
    requires InFlight(servers, store, work) && s in servers
    modifies s, store
    ensures InFlight(servers, store, next)
    ensures |next| == |work| + 1 && next[..|work|] == work && Began(s, r, next[|work|])
  {
    var w := Begin(s, r);
    forall o | o in servers ensures o.Honest() {
      if o != s {
        o.StaysHonest();
      }
    }
    forall i | 0 <= i < |work| ensures Sound(work[i], store) {
      if !work[i].Finished? {
        WorkStays(work[i]);
      }
    }
    next := work + [w];
  }

  method Continue(servers: set<Server>, store: Store, work: seq<Work>, r: Request) returns (next: seq<Work>)
    requires InFlight(servers, store, work) && r.GoesOn? && r.i < |work| && !work[r.i].Finished?
    modifies work[r.i].s, store
    ensures InFlight(servers, store, next)
    ensures |next| == |work| && next == work[r.i := next[r.i]] && WentOn(work[r.i], r, next[r.i])
  {
    var w := work[r.i];
    var rest := GoOn(w, r);
    next := work[r.i := rest];
    forall o | o in servers ensures o.Honest() {
      if o != w.s {
        o.StaysHonest();
      }
    }
    forall i | 0 <= i < |work| && i != r.i ensures Sound(work[i], store) {
      if !work[i].Finished? {
        WorkStays(work[i]);
      }
    }
  }

  /** Whatever is asked of one server, or goes on at it, the cluster stays as it should be: the
      others have not changed, and the store has only grown. */
  method Serve(servers: set<Server>, store: Store, work: seq<Work>, s: Server, r: Request) returns (next: seq<Work>)
    requires InFlight(servers, store, work) && s in servers && (r.IsCalled? ==> r.from in servers)
    modifies servers, store
    ensures InFlight(servers, store, next)
    ensures if r.OneToOne? || r.ToGroup? then |next| == |work| + 1 && next[..|work|] == work && Began(s, r, next[|work|])
            else if r.GoesOn? && r.i < |work| && !work[r.i].Finished?
            then |next| == |work| && next == work[r.i := next[r.i]] && WentOn(work[r.i], r, next[r.i])
            else next == work
    ensures !r.OneToOne? && !r.ToGroup? && !r.GoesOn? ==>
              Done(s, r) && (r.IsCalled? && r.i < |old(r.from.calls)| ==> Replied(s, old(r.from.calls[r.i])))
  {
    next := work;
    if r.GoesOn? {
      if r.i < |work| && !work[r.i].Finished? {
        next := Continue(servers, store, work, r);
      }
    } else if r.OneToOne? || r.ToGroup? {
      next := Start(servers, store, work, s, r);
    } else {
      Act(servers, store, s, r);
      forall o | o in servers ensures o.Honest() {
        if o != s {
          o.StaysHonest();
        }
      }
      forall i | 0 <= i < |work| ensures Sound(work[i], store) {
        if !work[i].Finished? {
          WorkStays(work[i]);
        }
      }
    }
  }

  /** Another server starts up. */
  method Join(servers: set<Server>, store: Store) returns (s: Server)
    requires Cluster(servers, store)
    ensures fresh(s) && Cluster(servers + {s}, store)
  {
    s := new Server(store);
  }

  /** All that the server queued for retries or passed on is stored for its receivers or was
      removed at their request. */
  ghost predicate AllKept(s: Server, store: Store)
    reads s, store
  {
    && (forall i :: 0 <= i < |s.pushed| ==>
          match s.pushed[i].frame
          case One(m) => m.receiver == s.pushed[i].receiver && OneKept(store, m)
          case Group(g) => GroupKept(store, g, s.pushed[i].receiver)
          case _ => false)
    && (forall i :: 0 <= i < |s.calls| ==>
          match s.calls[i]
          case Forward(_, m) => OneKept(store, m)
          case ForwardGroup(_, g, receivers) => forall u :: u in receivers ==> GroupKept(store, g, u))
  }

  /** How many handlers of messages the requests begin. */
  function Begun(requests: seq<(Server, Request)>): nat {
    if requests == [] then 0 else
      var last := |requests| - 1;
      Begun(requests[..last]) + if requests[last].1.OneToOne? || requests[last].1.ToGroup? then 1 else 0
  }

  /** Over every run of the cluster, with the parts of different handlers in any order, handlers
      that never go on, and calls arriving late, twice or never: nothing accepted is lost at any
      server, and every statement was enabled when it was made. */
  method Run(servers: set<Server>, store: Store, requests: seq<(Server, Request)>) returns (work: seq<Work>)
    requires Cluster(servers, store)
    requires forall k :: 0 <= k < |requests| ==>
               requests[k].0 in servers && (requests[k].1.IsCalled? ==> requests[k].1.from in servers)
    modifies servers, store
    ensures Cluster(servers, store) && forall s :: s in servers ==> AllKept(s, store)
    ensures GroupTables.AllEnabled(store.groupLog) && Notifies.AllEnabled(store.noteLog)
    ensures InFlight(servers, store, work) && |work| == Begun(requests)
  {
    work := [];
    for k := 0 to |requests|
      invariant InFlight(servers, store, work) && |work| == Begun(requests[..k])
    {
      work := Serve(servers, store, work, requests[k].0, requests[k].1);
      assert requests[..k + 1][..k] == requests[..k];
    }
    assert requests[..|requests|] == requests;
    forall s | s in servers ensures AllKept(s, store) {
      ClusterKeeps(servers, store, s);
    }
  }

  /** In a cluster nothing is lost by giving up retries or by calls that do not arrive. */
  lemma ClusterKeeps(servers: set<Server>, store: Store, s: Server)
    requires Cluster(servers, store) && s in servers
    ensures AllKept(s, store)
  {
    forall i | 0 <= i < |s.pushed| {
      QueuedIsStoredOrRemoved(s, i);
    }
    forall i | 0 <= i < |s.calls| {
      ForwardedIsStoredOrRemoved(s, i);
    }
  }
}
