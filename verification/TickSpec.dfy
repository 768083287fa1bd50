/** The tick of the retry manager on values: the queue and the index by receiver and message id,
    without heap, slots and contexts. An index holds one message for each key, so giving a message
    up can take another one of the same key off the queue. */
module TickSpec {
  import opened Words
  import opened Collections
  import opened RetrySpec
  import opened MinHeaps

  type Key = (uint32, uint64)

  function KeyOf(m: AckMessage): Key {
    (m.receiver, m.msgid)
  }

  /** No two of these messages share receiver and message id. */
  ghost predicate DistinctKeys(s: set<AckMessage>) {
    forall m, k :: m in s && k in s && KeyOf(m) == KeyOf(k) ==> m == k
  }

  /** The entries of the contexts of several users, by user and message id. */
  ghost function Flat(contexts: map<uint32, map<uint64, AckMessage>>): map<Key, AckMessage> {
    var keys := set uid, id | uid in contexts && id in contexts[uid] :: (uid, id);
    map k | k in keys :: contexts[k.0][k.1]
  }

  lemma FlatAt(contexts: map<uint32, map<uint64, AckMessage>>, key: Key)
    ensures key in Flat(contexts) <==> key.0 in contexts && key.1 in contexts[key.0]
    ensures key in Flat(contexts) ==> Flat(contexts)[key] == contexts[key.0][key.1]
  {
    assert key == (key.0, key.1);
  }

  /** One context changes: so does the index, at this user's keys. */
  lemma FlatUpdate(contexts: map<uint32, map<uint64, AckMessage>>, uid: uint32, entries: map<uint64, AckMessage>)
    ensures var was, now := Flat(contexts), Flat(contexts[uid := entries]);
            && (forall key :: key in now <==> if key.0 == uid then key.1 in entries else key in was)
            && (forall key :: key in now ==> now[key] == if key.0 == uid then entries[key.1] else was[key])
  {
  }

  /** Without a user's entries, be the context gone or empty. */
  lemma FlatEmptied(contexts: map<uint32, map<uint64, AckMessage>>, uid: uint32)
    ensures var rest := map key | key in Flat(contexts) && key.0 != uid :: Flat(contexts)[key];
            Flat(contexts - {uid}) == rest && Flat(contexts[uid := map[]]) == rest
  {
  }

  lemma FlatSet(contexts: map<uint32, map<uint64, AckMessage>>, uid: uint32, id: uint64, m: AckMessage)
    requires uid in contexts
    ensures Flat(contexts[uid := contexts[uid][id := m]]) == Flat(contexts)[(uid, id) := m]
  {
    FlatUpdate(contexts, uid, contexts[uid][id := m]);
  }

  lemma FlatDrop(contexts: map<uint32, map<uint64, AckMessage>>, uid: uint32, id: uint64)
    requires uid in contexts
    ensures Flat(contexts[uid := contexts[uid] - {id}]) == Flat(contexts) - {(uid, id)}
  {
    FlatUpdate(contexts, uid, contexts[uid] - {id});
  }

  /** The queue, and the message the contexts of the current connections hold for each key. */
  datatype Book = Book(queue: Queue<AckMessage>, index: map<Key, AckMessage>)

  /** A push by the map steps: the new message gets its first stamp. */
  lemma PushIsNext(q: Queue<AckMessage>, m: AckMessage, now: int, connected: bool)
    ensures var r := Next(q, Event.Push(now, m, connected));
            && r == (if connected then q[m := Stamp(now + ACK_WAIT, 1)] else q)
            && (connected ==> r.Keys == q.Keys + {m})
            && (DistinctKeys(q.Keys + {m}) ==> DistinctKeys(r.Keys))
  {
  }

  /** When a tick happens, who is connected then, and which writes go through. */
  datatype Moment = Moment(now: int, connected: set<uint32>, writable: set<AckMessage>) {
    /** The messages a write of which goes through: receiver connected, and the connection
        takes the request. */
    function Reachable(): set<AckMessage> {
      set m | m in writable && m.receiver in connected
    }
  }

  /** A message sent too often is given up; its receiver's context is asked what to take off. */
  predicate GivesUp(q: Queue<AckMessage>, m: AckMessage, t: Moment)
    requires m in q
  {
    m.receiver in t.connected && q[m].ntime > MAX_RETRY
  }

  /** The other message that leaves the queue with `m`: the one the index holds for its key. */
  function Robbed(b: Book, m: AckMessage, t: Moment): set<AckMessage>
    requires m in b.queue
  {
    if GivesUp(b.queue, m, t) && KeyOf(m) in b.index then {b.index[KeyOf(m)]} * (b.queue.Keys - {m}) else {}
  }

  /** One turn of the loop. */
  function TurnOn(b: Book, m: AckMessage, t: Moment): Book
    requires m in b.queue
  {
    Book(TickOn(b.queue, {m}, t.now, t.Reachable()) - Robbed(b, m, t),
         if GivesUp(b.queue, m, t) then b.index - {KeyOf(m)}
         else if Retried(b.queue, m, t.Reachable()) then b.index[KeyOf(m) := m]
         else b.index)
  }

  function TurnsOn(b: Book, taken: seq<AckMessage>, t: Moment): Book {
    if taken == [] then b else
      var c, k := TurnsOn(b, taken[..|taken| - 1], t), taken[|taken| - 1];
      if k in c.queue then TurnOn(c, k, t) else c
  }

  /** The messages that left with others. */
  function Stolen(b: Book, taken: seq<AckMessage>, t: Moment): set<AckMessage> {
    if taken == [] then {} else
      var c, k := TurnsOn(b, taken[..|taken| - 1], t), taken[|taken| - 1];
      Stolen(b, taken[..|taken| - 1], t) + if k in c.queue then Robbed(c, k, t) else {}
  }

  /** `k` is overdue and none is due earlier. */
  ghost predicate Foremost(q: Queue<AckMessage>, k: AckMessage, now: int) {
    k in q && q[k].timeout < now && forall m :: m in q ==> q[k].timeout <= q[m].timeout
  }

  /** Every message was foremost when it was taken off. */
  ghost predicate Legal(b: Book, taken: seq<AckMessage>, t: Moment) {
    if taken == [] then true else
      Legal(b, taken[..|taken| - 1], t) && Foremost(TurnsOn(b, taken[..|taken| - 1], t).queue, taken[|taken| - 1], t.now)
  }

  function Elements(taken: seq<AckMessage>): set<AckMessage> {
    set m | m in taken
  }

  lemma ElementsOfLast(taken: seq<AckMessage>)
    requires taken != []
    ensures Elements(taken) == Elements(taken[..|taken| - 1]) + {taken[|taken| - 1]}
  {
    assert taken == taken[..|taken| - 1] + [taken[|taken| - 1]];
  }

  /** In the middle of a tick: as many due messages as turns have been dealt with, and the queue
      is what dealing with them leaves, but for those stolen. */
  lemma {:induction false} TurnsLose(b: Book, taken: seq<AckMessage>, t: Moment)
    requires Legal(b, taken, t)
    ensures Elements(taken) <= DueAt(b.queue, t.now) && |Elements(taken)| == |taken|
    ensures TurnsOn(b, taken, t).queue == TickOn(b.queue, Elements(taken), t.now, t.Reachable()) - Stolen(b, taken, t)
  {
    if taken == [] {
      assert TickOn(b.queue, {}, t.now, t.Reachable()) - {} == b.queue;
    } else {
      var before, k := taken[..|taken| - 1], taken[|taken| - 1];
      TurnsLose(b, before, t);
      var c := TurnsOn(b, before, t);
      TurnsAddUp(b.queue, Elements(before), Stolen(b, before, t), Robbed(c, k, t), t.now, t.Reachable(), c.queue, k);
      ElementsOfLast(taken);
    }
  }

  /** The next turn of a tick: the message had its first stamp of the tick still. */
  lemma TurnExtends(b: Book, taken: seq<AckMessage>, k: AckMessage, t: Moment)
    requires Legal(b, taken, t) && Foremost(TurnsOn(b, taken, t).queue, k, t.now)
    ensures Legal(b, taken + [k], t) && TurnsOn(b, taken + [k], t) == TurnOn(TurnsOn(b, taken, t), k, t)
    ensures k in b.queue && b.queue[k] == TurnsOn(b, taken, t).queue[k]
    ensures Kept(b.queue, taken + [k], t.Reachable())
            == Kept(b.queue, taken, t.Reachable()) + if Retried(b.queue, k, t.Reachable()) then [k] else []
  {
    var c := TurnsOn(b, taken, t);
    TurnsLose(b, taken, t);
    TurnsAddUp(b.queue, Elements(taken), Stolen(b, taken, t), {}, t.now, t.Reachable(), c.queue, k);
    assert (taken + [k])[..|taken|] == taken;
  }

  /** What a message to be given up robs is what the index holds, except itself. */
  lemma RobbedIsShadow(b: Book, m: AckMessage, t: Moment)
    requires m in b.queue
    ensures GivesUp(b.queue, m, t) && KeyOf(m) in b.index ==>
              b.queue - {m} - {b.index[KeyOf(m)]} == b.queue - {m} - Robbed(b, m, t)
    ensures Robbed(b, m, t) !! {m} && Robbed(b, m, t) <= b.queue.Keys
  {
  }

  /** Where the loop stops: after as many turns as there were messages, or with nothing due. */
  ghost predicate Ended(b: Book, taken: seq<AckMessage>, t: Moment) {
    Legal(b, taken, t) && (|taken| == |b.queue| || DueAt(TurnsOn(b, taken, t).queue, t.now) == {})
  }

  /** A turn is left and the heap is empty: slot 0 is read out of range. */
  ghost predicate Starved(b: Book, taken: seq<AckMessage>, t: Moment) {
    |taken| < |b.queue| && TurnsOn(b, taken, t).queue == map[]
  }

  /** The tick on maps, but for the messages stolen; and nothing overdue is left in any case. */
  lemma TickLoses(b: Book, taken: seq<AckMessage>, t: Moment)
    requires Ended(b, taken, t)
    ensures TurnsOn(b, taken, t).queue == AfterTick(b.queue, t.now, t.Reachable()) - Stolen(b, taken, t)
    ensures DueAt(TurnsOn(b, taken, t).queue, t.now) == {}
    ensures DueAt(b.queue, t.now) <= Elements(taken) + Stolen(b, taken, t)
  {
    TurnsLose(b, taken, t);
    LoopEnd(b.queue, Elements(taken), Stolen(b, taken, t), t.now, t.Reachable());
  }

  /** The tick refines the tick on maps unless a message was stolen that should have stayed. */
  lemma RefinesUnlessStolen(b: Book, taken: seq<AckMessage>, t: Moment)
    requires Ended(b, taken, t)
    ensures TurnsOn(b, taken, t).queue == AfterTick(b.queue, t.now, t.Reachable())
       <==> Stolen(b, taken, t) !! AfterTick(b.queue, t.now, t.Reachable()).Keys
  {
    TickLoses(b, taken, t);
    var after, lost := AfterTick(b.queue, t.now, t.Reachable()), Stolen(b, taken, t);
    assert (after - lost).Keys == after.Keys - lost;
    assert lost !! after.Keys ==> after - lost == after;
  }

  /** It starves if nothing is left and a message was stolen before its turn. */
  lemma StarvedByTheft(b: Book, taken: seq<AckMessage>, t: Moment)
    requires Ended(b, taken, t)
    ensures Starved(b, taken, t) <==> TurnsOn(b, taken, t).queue == map[] && !(Stolen(b, taken, t) <= Elements(taken))
  {
    TurnsLose(b, taken, t);
    var q, done, lost := b.queue, Elements(taken), Stolen(b, taken, t);
    StolenAreQueued(b, taken, t);
    if done == q.Keys {
    } else if TurnsOn(b, taken, t).queue == map[] {
      var k :| k in q && k !in done;
      assert k in TickOn(q, done, t.now, t.Reachable());
      assert k in lost;
      SmallerThanWhole(done, q.Keys);
    }
  }

  lemma SmallerThanWhole<T>(a: set<T>, b: set<T>)
    requires a < b
    ensures |a| < |b|
  {
    assert b == a + (b - a) && b - a != {};
  }

  lemma {:induction false} StolenAreQueued(b: Book, taken: seq<AckMessage>, t: Moment)
    ensures TurnsOn(b, taken, t).queue.Keys <= b.queue.Keys && Stolen(b, taken, t) <= b.queue.Keys
  {
    if taken != [] {
      StolenAreQueued(b, taken[..|taken| - 1], t);
    }
  }

  /** If nobody was stolen, the tick is the tick on maps, and every due message had its turn. */
  lemma {:induction false} NoneStolen(b: Book, taken: seq<AckMessage>, t: Moment)
    requires Ended(b, taken, t) && Stolen(b, taken, t) == {}
    ensures TurnsOn(b, taken, t).queue == AfterTick(b.queue, t.now, t.Reachable()) && !Starved(b, taken, t)
    ensures Elements(taken) == DueAt(b.queue, t.now) && TakenInOrder(b.queue, taken, DueAt(b.queue, t.now))
  {
    TurnsLose(b, taken, t);
    TickLoses(b, taken, t);
    RefinesUnlessStolen(b, taken, t);
    StarvedByTheft(b, taken, t);
    InOrder(b, taken, t);
  }

  /** As long as nobody was stolen, the next in turn is new and due no later than all those left. */
  lemma NextInTurn(b: Book, before: seq<AckMessage>, k: AckMessage, t: Moment)
    requires Legal(b, before, t) && Stolen(b, before, t) == {} && Foremost(TurnsOn(b, before, t).queue, k, t.now)
    ensures var q, done := b.queue, Elements(before);
            && k in q && k !in done && k in DueAt(q, t.now) && done <= DueAt(q, t.now)
            && q[k] == TurnsOn(b, before, t).queue[k]
            && forall m :: m in q && m !in done ==> q[k].timeout <= q[m].timeout
  {
    TurnsLose(b, before, t);
    TurnsAddUp(b.queue, Elements(before), {}, {}, t.now, t.Reachable(), TurnsOn(b, before, t).queue, k);
  }

  lemma {:induction false} InOrder(b: Book, taken: seq<AckMessage>, t: Moment)
    requires Legal(b, taken, t) && Stolen(b, taken, t) == {}
    ensures TakenInOrder(b.queue, taken, Elements(taken))
  {
    if taken != [] {
      var before, k := taken[..|taken| - 1], taken[|taken| - 1];
      assert Stolen(b, before, t) == {};
      InOrder(b, before, t);
      NextInTurn(b, before, k, t);
      TakeOne(b.queue, before, Elements(before), k);
      ElementsOfLast(taken);
      assert before + [k] == taken;
    }
  }

  // ---------- when a message is stolen ----------

  /** Every entry holds a message of its key. */
  ghost predicate SoundIndex(index: map<Key, AckMessage>) {
    forall key :: key in index ==> KeyOf(index[key]) == key
  }

  /** Another queued message with `m`'s key that the index holds when `m`'s turn comes after those
      of `done`: one of these that was sent again, or else the one the index held before. */
  ghost predicate Rival(b: Book, done: set<AckMessage>, m: AckMessage, x: AckMessage, t: Moment) {
    && x in b.queue && x != m && KeyOf(x) == KeyOf(m)
    && if x in done then Retried(b.queue, x, t.Reachable()) else KeyOf(m) in b.index && b.index[KeyOf(m)] == x
  }

  /** The message of turn `i` is given up while it has a rival. */
  ghost predicate Thief(b: Book, taken: seq<AckMessage>, i: nat, t: Moment)
    requires i < |taken|
  {
    taken[i] in b.queue && GivesUp(b.queue, taken[i], t) && exists x :: x in b.queue && Rival(b, Elements(taken[..i]), taken[i], x, t)
  }

  /** Entries made during the tick hold messages already dealt with. */
  lemma {:induction false} EntriesSince(b: Book, taken: seq<AckMessage>, t: Moment, key: Key)
    requires SoundIndex(b.index)
    ensures var index := TurnsOn(b, taken, t).index;
            key in index ==> KeyOf(index[key]) == key && (index[key] in Elements(taken) || (key in b.index && index[key] == b.index[key]))
  {
    if taken != [] {
      EntriesSince(b, taken[..|taken| - 1], t, key);
      ElementsOfLast(taken);
    }
  }

  /** A turn that robs nobody leaves an entry for a queued message as it is, or puts its own there. */
  lemma EntryStays(c: Book, k: AckMessage, key: Key, t: Moment)
    requires k in c.queue && Robbed(c, k, t) == {} && key in c.index && c.index[key] in c.queue && c.index[key] != k
    ensures var d := TurnOn(c, k, t); key in d.index && d.index[key] in d.queue && (d.index[key] == c.index[key] || d.index[key] == k)
  {
  }

  /** A rival makes sure that the index holds some queued message. */
  lemma {:induction false} RivalHolds(b: Book, taken: seq<AckMessage>, m: AckMessage, x: AckMessage, t: Moment)
    requires Legal(b, taken, t) && Stolen(b, taken, t) == {} && Rival(b, Elements(taken), m, x, t)
    ensures var c := TurnsOn(b, taken, t);
            && KeyOf(m) in c.index && c.index[KeyOf(m)] in c.queue
            && (c.index[KeyOf(m)] in Elements(taken) || c.index[KeyOf(m)] == x)
  {
    if taken != [] {
      var before, k := taken[..|taken| - 1], taken[|taken| - 1];
      ElementsOfLast(taken);
      assert Stolen(b, before, t) == {};
      NextInTurn(b, before, k, t);
      if x != k {
        RivalHolds(b, before, m, x, t);
        EntryStays(TurnsOn(b, before, t), k, KeyOf(m), t);
      }
    }
  }

  /** Turn `i` is the first that takes another message along: `x` is queued at that time. */
  ghost predicate FirstTheft(b: Book, taken: seq<AckMessage>, i: nat, x: AckMessage, t: Moment)
    requires i < |taken|
  {
    var c, m := TurnsOn(b, taken[..i], t), taken[i];
    && Stolen(b, taken[..i], t) == {} && x in c.queue && x in b.queue && m in b.queue
    && GivesUp(b.queue, m, t) && Rival(b, Elements(taken[..i]), m, x, t)
  }

  lemma RobbedIsRival(b: Book, before: seq<AckMessage>, k: AckMessage, t: Moment)
    requires Legal(b, before, t) && SoundIndex(b.index) && Stolen(b, before, t) == {}
    requires var c := TurnsOn(b, before, t); Foremost(c.queue, k, t.now) && Robbed(c, k, t) != {}
    ensures var c := TurnsOn(b, before, t);
            k in b.queue && GivesUp(b.queue, k, t) && forall x :: x in Robbed(c, k, t) ==> x in c.queue && x in b.queue && Rival(b, Elements(before), k, x, t)
  {
    NextInTurn(b, before, k, t);
    TurnsLose(b, before, t);
    EntriesSince(b, before, t, KeyOf(k));
  }

  /** A theft has a thief: the first turn that takes another message along has a rival. */
  lemma {:induction false} TheftHasThief(b: Book, taken: seq<AckMessage>, t: Moment) returns (i: nat, x: AckMessage)
    requires Legal(b, taken, t) && SoundIndex(b.index) && Stolen(b, taken, t) != {}
    ensures i < |taken| && FirstTheft(b, taken, i, x, t)
  {
    i := |taken| - 1;
    var before := taken[..i];
    if Stolen(b, before, t) != {} {
      i, x := TheftHasThief(b, before, t);
      assert before[..i] == taken[..i];
    } else {
      RobbedIsRival(b, before, taken[i], t);
      x :| x in Robbed(TurnsOn(b, before, t), taken[i], t);
    }
  }

  /** The exact condition of a theft: some turn gives a message up that has a rival. */
  lemma TheftIff(b: Book, taken: seq<AckMessage>, t: Moment)
    requires Legal(b, taken, t) && SoundIndex(b.index)
    ensures Stolen(b, taken, t) != {} <==> exists i :: 0 <= i < |taken| && Thief(b, taken, i, t)
  {
    if Stolen(b, taken, t) != {} {
      var i, x := TheftHasThief(b, taken, t);
      assert Thief(b, taken, i, t);
    } else if i :| 0 <= i < |taken| && Thief(b, taken, i, t) {
      LegalPrefix(b, taken, i, t);
      var x :| x in b.queue && Rival(b, Elements(taken[..i]), taken[i], x, t);
      RivalHolds(b, taken[..i], taken[i], x, t);
      TurnsLose(b, taken[..i], t);
    }
  }

  lemma {:induction false} LegalPrefix(b: Book, taken: seq<AckMessage>, i: nat, t: Moment)
    requires Legal(b, taken, t) && i < |taken|
    ensures Legal(b, taken[..i], t) && Foremost(TurnsOn(b, taken[..i], t).queue, taken[i], t.now)
    ensures Stolen(b, taken[..i], t) <= Stolen(b, taken, t)
    ensures taken[i] in TurnsOn(b, taken[..i], t).queue ==> Robbed(TurnsOn(b, taken[..i], t), taken[i], t) <= Stolen(b, taken, t)
  {
    if i < |taken| - 1 {
      LegalPrefix(b, taken[..|taken| - 1], i, t);
      assert taken[..|taken| - 1][..i] == taken[..i];
    }
  }

  // ---------- what the queue and the index tell before the tick ----------

  /** Before the tick: `m` is due and will be given up, and `x` is queued under the same key. Either
      `x` comes before `m` and is sent again, or it does not and is the one the index holds. */
  ghost predicate Takes(b: Book, m: AckMessage, x: AckMessage, t: Moment)
    requires m in b.queue && x in b.queue
  {
    && x != m && KeyOf(x) == KeyOf(m) && b.queue[m].timeout < t.now && GivesUp(b.queue, m, t)
    && if b.queue[x].timeout < b.queue[m].timeout then Retried(b.queue, x, t.Reachable())
       else KeyOf(m) in b.index && b.index[KeyOf(m)] == x
  }

  /** Due messages of one key have different deadlines, so that their turns have one order. */
  ghost predicate TiesApart(b: Book, t: Moment) {
    forall m, x :: m in DueAt(b.queue, t.now) && x in DueAt(b.queue, t.now) && m != x && KeyOf(m) == KeyOf(x) ==>
      b.queue[m].timeout != b.queue[x].timeout
  }

  /** Before the first theft, those dealt with were due no later than those left. */
  lemma TurnsInOrder(b: Book, taken: seq<AckMessage>, i: nat, t: Moment)
    requires Legal(b, taken, t) && i < |taken| && Stolen(b, taken[..i], t) == {}
    ensures var m, done := taken[i], Elements(taken[..i]);
            && m in b.queue && m !in done && done <= DueAt(b.queue, t.now) && m in DueAt(b.queue, t.now)
            && (forall x :: x in done ==> b.queue[x].timeout <= b.queue[m].timeout)
            && (forall x :: x in b.queue && x !in done ==> b.queue[m].timeout <= b.queue[x].timeout)
  {
    LegalPrefix(b, taken, i, t);
    NextInTurn(b, taken[..i], taken[i], t);
    InOrder(b, taken[..i], t);
    EarlierFirst(b.queue, taken[..i], Elements(taken[..i]));
  }

  lemma TakerIsThief(b: Book, taken: seq<AckMessage>, m: AckMessage, x: AckMessage, t: Moment)
    requires Ended(b, taken, t) && TiesApart(b, t) && Stolen(b, taken, t) == {}
    requires m in b.queue && x in b.queue && Takes(b, m, x, t)
    ensures exists i :: 0 <= i < |taken| && Thief(b, taken, i, t)
  {
    NoneStolen(b, taken, t);
    assert m in Elements(taken);
    var i :| 0 <= i < |taken| && taken[i] == m;
    LegalPrefix(b, taken, i, t);
    TurnsInOrder(b, taken, i, t);
    assert Rival(b, Elements(taken[..i]), m, x, t);
    assert Thief(b, taken, i, t);
  }

  /** For messages of one key with different deadlines, whether one is stolen can be told before
      the tick: exactly if a due message to be given up takes another. With equal deadlines the
      order of their turns is the heap's, and `TheftIff` says it in that order. */
  lemma TakesIff(b: Book, taken: seq<AckMessage>, t: Moment)
    requires Ended(b, taken, t) && SoundIndex(b.index) && TiesApart(b, t)
    ensures Stolen(b, taken, t) != {} <==> exists m, x :: m in b.queue && x in b.queue && Takes(b, m, x, t)
  {
    if Stolen(b, taken, t) != {} {
      var i, x := TheftHasThief(b, taken, t);
      TurnsInOrder(b, taken, i, t);
      assert Takes(b, taken[i], x, t);
    } else if m, x :| m in b.queue && x in b.queue && Takes(b, m, x, t) {
      TakerIsThief(b, taken, m, x, t);
      TheftIff(b, taken, t);
    }
  }

  /** Whatever the order of equal deadlines: nothing is stolen if no due message to be given up has
      another of its key that is sent again and due no later, or that the index holds and is due
      no earlier. */
  lemma NoRivals(b: Book, taken: seq<AckMessage>, t: Moment)
    requires Legal(b, taken, t) && SoundIndex(b.index)
    requires forall m, x :: m in DueAt(b.queue, t.now) && GivesUp(b.queue, m, t) && x in b.queue && x != m && KeyOf(x) == KeyOf(m) ==>
               && !(Retried(b.queue, x, t.Reachable()) && b.queue[x].timeout <= b.queue[m].timeout)
               && !(KeyOf(m) in b.index && b.index[KeyOf(m)] == x && b.queue[m].timeout <= b.queue[x].timeout)
    ensures Stolen(b, taken, t) == {}
  {
    if Stolen(b, taken, t) != {} {
      var i, x := TheftHasThief(b, taken, t);
      TurnsInOrder(b, taken, i, t);
    }
  }

  /** A tick as steps of a run, thefts included: those stolen before their turn could not be
      written, and all stolen ones leave as if they had been acknowledged. So whatever holds of all
      runs holds of runs with thefts. */
  lemma TickIsRun(b: Book, taken: seq<AckMessage>, t: Moment) returns (es: seq<Event<AckMessage>>)
    requires Ended(b, taken, t)
    ensures |es| > 0 && es[0] == Event.Tick(t.now, t.Reachable() - (Stolen(b, taken, t) - Elements(taken)))
    ensures forall i :: 0 < i < |es| ==> es[i].Ack? && es[i].k in Stolen(b, taken, t)
    ensures Run(b.queue, es) == TurnsOn(b, taken, t).queue
    ensures forall k :: k in Kept(b.queue, taken, t.Reachable()) <==> GoesOut(b.queue, es[0], k)
  {
    var lost := Stolen(b, taken, t);
    var tick := Event.Tick(t.now, t.Reachable() - (lost - Elements(taken)));
    TickLoses(b, taken, t);
    TurnsLose(b, taken, t);
    OutOfReach(b.queue, t.now, t.Reachable(), Elements(taken), lost);
    assert [tick][..0] == [] && Run(b.queue, [tick]) == AfterTick(b.queue, tick.now, tick.reachable);
    es := AckAll(b.queue, [tick], lost, t.now);
    KeptAre(b.queue, taken, t.Reachable());
    forall k: AckMessage ensures k in Kept(b.queue, taken, t.Reachable()) <==> GoesOut(b.queue, tick, k) {
      assert k in taken <==> k in Elements(taken);
    }
  }

  /** Whoever is lost without a turn might as well be out of reach. */
  lemma OutOfReach(q: Queue<AckMessage>, now: int, reachable: set<AckMessage>, done: set<AckMessage>, lost: set<AckMessage>)
    requires done <= DueAt(q, now) <= done + lost
    ensures AfterTick(q, now, reachable - (lost - done)) - lost == AfterTick(q, now, reachable) - lost
    ensures forall k :: k in Writes(q, now, reachable - (lost - done)) <==> k in done && k in q && Retried(q, k, reachable)
  {
  }

  lemma {:induction false} AckAll(q: Queue<AckMessage>, before: seq<Event<AckMessage>>, lost: set<AckMessage>, now: int)
    returns (es: seq<Event<AckMessage>>)
    requires |before| == 1
    ensures |es| > 0 && es[0] == before[0] && forall i :: 0 < i < |es| ==> es[i].Ack? && es[i].k in lost
    ensures Run(q, es) == Run(q, before) - lost
  {
    if lost == {} {
      es := before;
    } else {
      var k :| k in lost;
      var less := AckAll(q, before, lost - {k}, now);
      es := less + [Event.Ack(now, k)];
      assert es[..|less|] == less;
      assert Run(q, before) - (lost - {k}) - {k} == Run(q, before) - lost;
    }
  }

  lemma {:induction false} KeptAre(q: Queue<AckMessage>, taken: seq<AckMessage>, reachable: set<AckMessage>)
    ensures forall k :: k in Kept(q, taken, reachable) <==> k in taken && k in q && Retried(q, k, reachable)
  {
    if taken != [] {
      KeptAre(q, taken[..|taken| - 1], reachable);
      assert taken == taken[..|taken| - 1] + [taken[|taken| - 1]];
    }
  }

  /** What a whole tick comes to, `q` being the queue it leaves: the step of a run, but for the
      messages stolen. If none was, the heap was not read empty either, and the messages were
      taken in order. With distinct keys none is. */
  ghost predicate TickOutcome(b: Book, taken: seq<AckMessage>, t: Moment, q: Queue<AckMessage>, panicked: bool) {
    var after, lost := Next(b.queue, Event.Tick(t.now, t.Reachable())), Stolen(b, taken, t);
    && q == after - lost && DueAt(q, t.now) == {} && panicked == Starved(b, taken, t)
    && (lost == {} ==> !panicked && q == after && TakenInOrder(b.queue, taken, DueAt(b.queue, t.now)))
    && (DistinctKeys(b.queue.Keys) ==> lost == {} && DistinctKeys(q.Keys))
  }

  lemma TickMeans(b: Book, taken: seq<AckMessage>, t: Moment)
    requires Ended(b, taken, t) && SoundIndex(b.index)
    ensures TickOutcome(b, taken, t, TurnsOn(b, taken, t).queue, Starved(b, taken, t))
  {
    TickLoses(b, taken, t);
    if Stolen(b, taken, t) == {} {
      NoneStolen(b, taken, t);
    }
    if DistinctKeys(b.queue.Keys) {
      NoRivals(b, taken, t);
    }
  }

  /** Nothing can follow a turn that leaves the queue empty. */
  lemma {:induction false} EmptyEnds(b: Book, taken: seq<AckMessage>, t: Moment, i: nat)
    requires Legal(b, taken, t) && i <= |taken| && TurnsOn(b, taken[..i], t).queue == map[]
    ensures taken[..i] == taken
  {
    if i < |taken| {
      LegalPrefix(b, taken, i, t);
    }
  }

  /** A tick on a single message that is due and written again. */
  lemma LoneRetry(b: Book, taken: seq<AckMessage>, t: Moment, q: Queue<AckMessage>, panicked: bool, m: AckMessage)
    requires TickOutcome(b, taken, t, q, panicked) && b.queue.Keys == {m}
    requires b.queue[m].timeout < t.now && Retried(b.queue, m, t.Reachable())
    ensures q == map[m := Resent(b.queue[m], t.now)] && !panicked
  {
  }

  lemma OneRobsOther(b: Book, t: Moment, m: AckMessage, x: AckMessage)
    requires m != x && b.queue.Keys == {m, x} && GivesUp(b.queue, m, t) && KeyOf(m) in b.index && b.index[KeyOf(m)] == x
    ensures TurnOn(b, m, t).queue == map[]
  {
  }

  /** The smallest panic: of two queued messages one is due and given up, the other is not due but
      indexed under its key. */
  lemma TwoStarve(b: Book, taken: seq<AckMessage>, t: Moment, m: AckMessage, x: AckMessage)
    requires Ended(b, taken, t) && m != x && b.queue.Keys == {m, x}
    requires b.queue[m].timeout < t.now <= b.queue[x].timeout && GivesUp(b.queue, m, t)
    requires KeyOf(m) in b.index && b.index[KeyOf(m)] == x
    ensures taken == [m] && Starved(b, taken, t)
  {
    assert |b.queue| == |b.queue.Keys| == 2 && m in DueAt(b.queue, t.now);
    if taken != [] {
      LegalPrefix(b, taken, 0, t);
      assert taken[..0] == [] && taken[..1] == [m] && [m][..0] == [];
      OneRobsOther(b, t, m, x);
      EmptyEnds(b, taken, t, 1);
    }
  }

  /** A tick message by message: what becomes of each that is not stolen, and which are written. */
  ghost predicate RowByRow(q: Queue<AckMessage>, t: Moment, lost: set<AckMessage>, sent: seq<AckMessage>, r: Queue<AckMessage>) {
    && (forall m :: m in r ==> m in q && m !in lost)
    && (forall m :: m in sent ==> m in q && q[m].timeout < t.now && q[m].ntime <= 3 && m in t.writable && m.receiver in t.connected)
    && (forall m :: m in q && m !in lost ==>
          if q[m].timeout >= t.now then m in r && r[m] == q[m]
          else if q[m].ntime <= 3 && m in t.writable && m.receiver in t.connected
          then m in sent && m in r && r[m] == Stamp(t.now + 5, (q[m].ntime + 1) % 256)
          else m !in r)
  }

  lemma TickRow(q: Queue<AckMessage>, t: Moment, done: set<AckMessage>, lost: set<AckMessage>, m: AckMessage)
    requires done <= DueAt(q, t.now) <= done + lost && m in q && m !in lost
    ensures var r := AfterTick(q, t.now, t.Reachable()) - lost;
            if q[m].timeout >= t.now then m in r && r[m] == q[m]
            else if q[m].ntime <= 3 && m in t.writable && m.receiver in t.connected
            then m in done && m in r && r[m] == Stamp(t.now + 5, (q[m].ntime + 1) % 256)
            else m !in r
  {
  }

  lemma RowsOn(q: Queue<AckMessage>, t: Moment, done: set<AckMessage>, lost: set<AckMessage>, sent: seq<AckMessage>)
    requires done <= DueAt(q, t.now) <= done + lost
    requires forall m :: m in sent <==> m in done && m in q && Retried(q, m, t.Reachable())
    ensures RowByRow(q, t, lost, sent, AfterTick(q, t.now, t.Reachable()) - lost)
  {
    forall m | m in q && m !in lost
      ensures var r := AfterTick(q, t.now, t.Reachable()) - lost;
              if q[m].timeout >= t.now then m in r && r[m] == q[m]
              else if q[m].ntime <= 3 && m in t.writable && m.receiver in t.connected
              then m in sent && m in r && r[m] == Stamp(t.now + 5, (q[m].ntime + 1) % 256)
              else m !in r
    {
      TickRow(q, t, done, lost, m);
    }
  }

  lemma TickRows(b: Book, taken: seq<AckMessage>, t: Moment)
    requires Ended(b, taken, t)
    ensures RowByRow(b.queue, t, Stolen(b, taken, t), Kept(b.queue, taken, t.Reachable()), TurnsOn(b, taken, t).queue)
  {
    TickLoses(b, taken, t);
    TurnsLose(b, taken, t);
    KeptAre(b.queue, taken, t.Reachable());
    assert forall m :: m in taken <==> m in Elements(taken);
    RowsOn(b.queue, t, Elements(taken), Stolen(b, taken, t), Kept(b.queue, taken, t.Reachable()));
  }
}
