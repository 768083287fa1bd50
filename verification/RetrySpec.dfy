/** What the retry manager does, said on maps from messages to stamps, and what every
    run of it keeps. A message is identified by `K`; heaps and slots do not appear. */
module RetrySpec {
  import opened Collections

  /** Deadline of the current attempt and number of attempts so far. */
  datatype Stamp = Stamp(timeout: int, ntime: int)

  type Queue<!K> = map<K, Stamp>

  const ACK_WAIT := 5   // seconds an attempt waits for its ack
  const MAX_RETRY := 3  // an expired message with more attempts than this is given up

  /** Stamp of a message just sent again; `ntime` is a Go uint8 and wraps. */
  function Resent(s: Stamp, now: int): Stamp {
    Stamp(now + ACK_WAIT, (s.ntime + 1) % 0x100)
  }

  function DueAt<K>(q: Queue<K>, now: int): set<K> {
    set k | k in q && q[k].timeout < now
  }

  /** A due message stays queued exactly when it is written again. */
  predicate Retried<K>(q: Queue<K>, k: K, reachable: set<K>)
    requires k in q
  {
    k in reachable && q[k].ntime <= MAX_RETRY
  }

  /** The queue after the messages of `done` have been dealt with at time `now`. */
  function TickOn<K>(q: Queue<K>, done: set<K>, now: int, reachable: set<K>): Queue<K> {
    map k | k in q && (k in done ==> Retried(q, k, reachable)) :: if k in done then Resent(q[k], now) else q[k]
  }

  function AfterTick<K>(q: Queue<K>, now: int, reachable: set<K>): Queue<K> {
    TickOn(q, DueAt(q, now), now, reachable)
  }

  /** The messages a tick writes again. */
  function Writes<K>(q: Queue<K>, now: int, reachable: set<K>): set<K> {
    set k | k in DueAt(q, now) && Retried(q, k, reachable)
  }

  /** Dealing with one message: it is stamped anew or leaves the queue. */
  lemma OneTurn<K>(q: Queue<K>, k: K, now: int, reachable: set<K>)
    requires k in q
    ensures TickOn(q, {k}, now, reachable) == if Retried(q, k, reachable) then (q - {k})[k := Resent(q[k], now)] else q - {k}
  {
  }

  /** One more turn. In the queue `r` reached after dealing with `done`, the messages of `lost`
      having gone otherwise, let `k` be overdue with the earliest deadline: `k` is new, untouched
      so far, and dealing with it extends `done`, whatever else is lost with it. */
  lemma TurnsAddUp<K>(q: Queue<K>, done: set<K>, lost: set<K>, more: set<K>, now: int, reachable: set<K>, r: Queue<K>, k: K)
    requires r == TickOn(q, done, now, reachable) - lost && k in r && r[k].timeout < now
    requires forall m :: m in r ==> r[k].timeout <= r[m].timeout
    ensures k in q && k !in done && k in DueAt(q, now) && q[k] == r[k]
    ensures forall m :: m in q && m !in done + lost ==> q[k].timeout <= q[m].timeout
    ensures TickOn(r, {k}, now, reachable) - more == TickOn(q, done + {k}, now, reachable) - (lost + more)
  {
    assert forall m :: m in q && m !in done + lost ==> m in r && r[m] == q[m];
  }

  /** `taken` lists the messages of `done` in the order they came off the heap: each was due
      no later than everything then left of `q`. */
  ghost predicate TakenInOrder<K>(q: Queue<K>, taken: seq<K>, done: set<K>) {
    if taken == [] then done == {} else
      var before, k := taken[..|taken| - 1], taken[|taken| - 1];
      && k in q && k in done && TakenInOrder(q, before, done - {k})
      && forall m :: m in q && m !in done ==> q[k].timeout <= q[m].timeout
  }

  /** What has been taken was due no later than what is left. */
  lemma {:induction false} EarlierFirst<K>(q: Queue<K>, taken: seq<K>, done: set<K>)
    requires TakenInOrder(q, taken, done)
    ensures done <= q.Keys && forall k, m :: k in done && m in q && m !in done ==> q[k].timeout <= q[m].timeout
  {
    if taken != [] {
      EarlierFirst(q, taken[..|taken| - 1], done - {taken[|taken| - 1]});
    }
  }

  lemma {:induction false} TakeOne<K>(q: Queue<K>, taken: seq<K>, done: set<K>, k: K)
    requires TakenInOrder(q, taken, done) && k in q && k !in done
    requires forall m :: m in q && m !in done ==> q[k].timeout <= q[m].timeout
    ensures TakenInOrder(q, taken + [k], done + {k})
  {
    assert (taken + [k])[..|taken|] == taken && done + {k} - {k} == done;
  }

  /** The messages of `taken` that are written again. */
  function Kept<K>(q: Queue<K>, taken: seq<K>, reachable: set<K>): seq<K> {
    if taken == [] then [] else
      var before, k := taken[..|taken| - 1], taken[|taken| - 1];
      Kept(q, before, reachable) + if k in q && Retried(q, k, reachable) then [k] else []
  }

  /** A tick writes every retried message exactly once, earliest deadline first. */
  lemma {:induction false} KeptInOrder<K>(q: Queue<K>, taken: seq<K>, done: set<K>, reachable: set<K>)
    requires TakenInOrder(q, taken, done)
    ensures var sent := Kept(q, taken, reachable);
            && (forall k :: k in sent ==> k in done && k in q && Retried(q, k, reachable))
            && (forall k :: k in done ==> k in q && (Retried(q, k, reachable) ==> k in sent))
            && (forall i, j :: 0 <= i < j < |sent| ==> sent[i] != sent[j] && q[sent[i]].timeout <= q[sent[j]].timeout)
            && (forall k, m :: k in sent && m in q && m !in done ==> q[k].timeout <= q[m].timeout)
  {
    if taken != [] {
      var before, k := taken[..|taken| - 1], taken[|taken| - 1];
      KeptInOrder(q, before, done - {k}, reachable);
      var sent := Kept(q, before, reachable);
      assert forall i :: 0 <= i < |sent| ==> sent[i] in sent;
    }
  }

  /** The loop may stop when nothing due is left, or after as many turns as there were messages:
      what it leaves is the queue after the tick, but for the messages lost. */
  lemma LoopEnd<K>(q: Queue<K>, done: set<K>, lost: set<K>, now: int, reachable: set<K>)
    requires done <= DueAt(q, now)
    requires |done| == |q| || DueAt(TickOn(q, done, now, reachable) - lost, now) == {}
    ensures DueAt(q, now) <= done + lost
    ensures TickOn(q, done, now, reachable) - lost == AfterTick(q, now, reachable) - lost
    ensures DueAt(AfterTick(q, now, reachable), now) == {}
  {
    if |done| == |q| {
      SubsetOfSameSize(done, q.Keys);
    } else {
      forall k | k in DueAt(q, now) ensures k in done + lost {
        assert k in DueAt(TickOn(q, done, now, reachable) - lost, now) || k in done + lost;
      }
    }
  }

  // ---------- runs ----------

  /** One step of the event loop. `Push` hands over a message never handed over before;
      `reachable` are the messages whose receiver is connected and whose write succeeds. */
  datatype Event<!K> =
    | Push(now: int, k: K, connected: bool)
    | Ack(now: int, k: K)
    | Tick(now: int, reachable: set<K>)

  function Next<K>(q: Queue<K>, e: Event<K>): Queue<K> {
    match e
    case Push(now, k, connected) => if connected then q[k := Resent(Stamp(0, 0), now)] else q
    case Ack(_, k) => q - {k}
    case Tick(now, reachable) => AfterTick(q, now, reachable)
  }

  function Run<K>(q: Queue<K>, es: seq<Event<K>>): Queue<K> {
    if es == [] then q else Next(Run(q, es[..|es| - 1]), es[|es| - 1])
  }

  ghost predicate PushedOnce<K>(es: seq<Event<K>>) {
    forall i, j :: 0 <= i < j < |es| && es[i].Push? && es[j].Push? ==> es[i].k != es[j].k
  }

  ghost predicate Pushes<K>(es: seq<Event<K>>, k: K) {
    exists i :: 0 <= i < |es| && es[i].Push? && es[i].k == k
  }

  predicate IsPushOf<K>(e: Event<K>, k: K) {
    e.Push? && e.k == k
  }

  /** Step `e` puts message `k` on the wire. */
  predicate GoesOut<K>(q: Queue<K>, e: Event<K>, k: K) {
    match e
    case Push(_, k', connected) => k' == k && connected
    case Ack(_, _) => false
    case Tick(now, reachable) => k in Writes(q, now, reachable)
  }

  /** The messages step `e` puts on the wire. */
  ghost function Outgoing<K>(q: Queue<K>, e: Event<K>): set<K> {
    match e
    case Push(_, k, connected) => if connected then {k} else {}
    case Ack(_, _) => {}
    case Tick(now, reachable) => Writes(q, now, reachable)
  }

  /** The times at which message `k` went out along a run from the empty queue:
      when it was accepted into the queue and at every retry. */
  ghost function Sends<K>(es: seq<Event<K>>, k: K): seq<int> {
    if es == [] then [] else
      var before, e := es[..|es| - 1], es[|es| - 1];
      Sends(before, k) + if GoesOut(Run(map[], before), e, k) then [e.now] else []
  }

  ghost predicate Spaced(ts: seq<int>, gap: int) {
    forall i :: 0 < i < |ts| ==> ts[i - 1] + gap <= ts[i]
  }

  /** What the history `sends` of message `k` and its stamp in `q` have to do with each other. */
  ghost predicate Accounted<K>(q: Queue<K>, k: K, sends: seq<int>, pushed: bool) {
    && |sends| <= 4 && Spaced(sends, ACK_WAIT + 1)
    && (!pushed ==> sends == [] && k !in q)
    && (k in q ==> 1 <= q[k].ntime == |sends| && q[k].timeout == sends[|sends| - 1] + ACK_WAIT)
  }

  lemma StepAccounts<K>(q: Queue<K>, e: Event<K>, k: K, sends: seq<int>, pushed: bool)
    requires Accounted(q, k, sends, pushed) && !(pushed && IsPushOf(e, k))
    ensures Accounted(Next(q, e), k, sends + if GoesOut(q, e, k) then [e.now] else [], pushed || IsPushOf(e, k))
  {
  }

  /** In every run: a message goes out at most four times (once and three retries), each
      time at least six seconds after the time before; while it is queued its attempt
      counter is the number of times it went out and its deadline is five seconds after
      the last one. */
  lemma {:induction false} RetryBounds<K>(es: seq<Event<K>>, k: K)
    requires PushedOnce(es)
    ensures |Sends(es, k)| <= 4 && Spaced(Sends(es, k), ACK_WAIT + 1)
    ensures var q := Run(map[], es); k in q ==>
              && 1 <= q[k].ntime == |Sends(es, k)|
              && q[k].timeout == Sends(es, k)[|Sends(es, k)| - 1] + ACK_WAIT
    ensures Accounted(Run(map[], es), k, Sends(es, k), Pushes(es, k))
  {
    if es != [] {
      var before, e := es[..|es| - 1], es[|es| - 1];
      RetryBounds(before, k);
      assert forall i :: 0 <= i < |before| ==> before[i] == es[i];
      StepAccounts(Run(map[], before), e, k, Sends(before, k), Pushes(before, k));
      assert Pushes(es, k) <==> Pushes(before, k) || IsPushOf(e, k);
    }
  }

  /** And no retry is spared: at a tick a queued message goes out again exactly if more than five
      seconds have passed since it last did, it can be reached, and it has not gone out four times;
      past its deadline and not sent again it leaves the queue. */
  lemma RetriesIff<K>(es: seq<Event<K>>, now: int, reachable: set<K>, k: K)
    requires PushedOnce(es) && k in Run(map[], es)
    ensures var q, e, out := Run(map[], es), Event.Tick(now, reachable), Sends(es, k);
            && out != []
            && (GoesOut(q, e, k) <==> out[|out| - 1] + 5 < now && k in reachable && |out| < 4)
            && (k in Next(q, e) <==> (out[|out| - 1] + 5 < now ==> k in reachable && |out| < 4))
  {
    RetryBounds(es, k);
  }

  // ---------- draining ----------

  /** No new messages come in. */
  ghost predicate Quiet<K>(es: seq<Event<K>>) {
    forall i :: 0 <= i < |es| ==> !es[i].Push?
  }

  ghost predicate Attempted<K>(q: Queue<K>) {
    forall k :: k in q ==> 1 <= q[k].ntime <= 4
  }

  ghost function DueIn<K>(q: Queue<K>, e: Event<K>): set<K> {
    if e.Tick? then DueAt(q, e.now) else {}
  }

  /** Expiries met along a run: every time a queued message is found overdue by a tick. */
  ghost function Expiries<K>(q: Queue<K>, es: seq<Event<K>>): nat {
    if es == [] then 0 else
      var before, e := es[..|es| - 1], es[|es| - 1];
      Expiries(q, before) + |DueIn(Run(q, before), e)|
  }

  /** Attempts still open for `k`; zero once it has left the queue. */
  function Open<K>(q: Queue<K>, k: K): int {
    if k in q then 5 - q[k].ntime else 0
  }

  /** Sum of the open attempts over the keys `ks`. */
  ghost function Potential<K>(q: Queue<K>, ks: set<K>): int {
    if ks == {} then 0 else
      var k :| k in ks;
      Open(q, k) + Potential(q, ks - {k})
  }

  /** If `r` has at most the open attempts of `q` everywhere and strictly fewer on `due`,
      its potential is lower by at least the size of `due`. */
  lemma {:induction false} PotentialFalls<K>(q: Queue<K>, r: Queue<K>, ks: set<K>, due: set<K>)
    requires due <= ks
    requires forall k :: k in ks ==> Open(r, k) <= Open(q, k) - if k in due then 1 else 0
    ensures Potential(r, ks) + |due| <= Potential(q, ks)
  {
    if ks == {} {
      assert due == {};
    } else {
      var k :| k in ks && Potential(q, ks) == Open(q, k) + Potential(q, ks - {k});
      PotentialFalls(q, r, ks - {k}, due - {k});
      PotentialPick(r, ks, k);
      assert due == if k in due then (due - {k}) + {k} else due - {k};
    }
  }

  /** The sum does not depend on the order of its terms. */
  lemma {:induction false} PotentialPick<K>(q: Queue<K>, ks: set<K>, k: K)
    requires k in ks
    ensures Potential(q, ks) == Open(q, k) + Potential(q, ks - {k})
  {
    var p :| p in ks && Potential(q, ks) == Open(q, p) + Potential(q, ks - {p});
    if p != k {
      PotentialPick(q, ks - {p}, k);
      PotentialPick(q, ks - {k}, p);
      assert ks - {p} - {k} == ks - {k} - {p};
    }
  }

  lemma {:induction false} PotentialBound<K>(q: Queue<K>, ks: set<K>)
    requires Attempted(q)
    ensures 0 <= Potential(q, ks) <= 4 * |ks|
  {
    if ks != {} {
      var k :| k in ks && Potential(q, ks) == Open(q, k) + Potential(q, ks - {k});
      PotentialBound(q, ks - {k});
      assert 0 <= Open(q, k) <= 4;
      assert ks == (ks - {k}) + {k};
      assert 0 <= Potential(q, ks);
      assert |ks| == |ks - {k}| + 1;
    } else {
      assert |ks| == 0;
    }
  }

  lemma StepPays<K>(q: Queue<K>, e: Event<K>, ks: set<K>)
    requires Attempted(q) && !e.Push? && q.Keys <= ks
    ensures Attempted(Next(q, e)) && Next(q, e).Keys <= ks
    ensures Potential(Next(q, e), ks) + |DueIn(q, e)| <= Potential(q, ks)
  {
    PotentialFalls(q, Next(q, e), ks, DueIn(q, e));
  }

  /** Without new messages every expiry costs an open attempt. */
  lemma {:induction false} ExpiriesArePaid<K>(q: Queue<K>, es: seq<Event<K>>)
    requires Attempted(q) && Quiet(es)
    ensures Attempted(Run(q, es)) && Run(q, es).Keys <= q.Keys
    ensures Expiries(q, es) + Potential(Run(q, es), q.Keys) <= Potential(q, q.Keys)
  {
    if es != [] {
      var before, e := es[..|es| - 1], es[|es| - 1];
      ExpiriesArePaid(q, before);
      var r := Run(q, before);
      StepPays(r, e, q.Keys);
    }
  }

  /** Draining: without new messages at most four expiries per queued message ever happen. */
  lemma {:induction false} DrainBound<K>(q: Queue<K>, es: seq<Event<K>>)
    requires Attempted(q) && Quiet(es)
    ensures Expiries(q, es) <= 4 * |q|
  {
    ExpiriesArePaid(q, es);
    PotentialBound(q, q.Keys);
    PotentialBound(Run(q, es), q.Keys);
  }

  function Ticks<K>(es: seq<Event<K>>): nat {
    if es == [] then 0 else Ticks(es[..|es| - 1]) + if es[|es| - 1].Tick? then 1 else 0
  }

  /** The latest deadline left after a run of acks and ticks that started with deadlines up to `t0`. */
  function LatestDeadline<K>(t0: int, es: seq<Event<K>>): int {
    if es == [] then t0
    else if es[|es| - 1].Tick? then es[|es| - 1].now + ACK_WAIT
    else LatestDeadline(t0, es[..|es| - 1])
  }

  /** Each tick comes after the initial deadlines and more than five seconds after the tick before. */
  ghost predicate SpacedTicks<K>(t0: int, es: seq<Event<K>>) {
    if es == [] then true else
      var before, e := es[..|es| - 1], es[|es| - 1];
      SpacedTicks(t0, before) && (e.Tick? ==> LatestDeadline(t0, before) < e.now)
  }

  /** Along a quiet run with spaced ticks every message left has been sent once more per tick. */
  lemma {:induction false} SpacedTicksCount<K>(q: Queue<K>, t0: int, es: seq<Event<K>>, k: K)
    requires Attempted(q) && Quiet(es) && SpacedTicks(t0, es) && forall k :: k in q ==> q[k].timeout <= t0
    ensures k in Run(q, es) ==>
              Ticks(es) < Run(q, es)[k].ntime <= 4 && Run(q, es)[k].timeout <= LatestDeadline(t0, es)
  {
    if es != [] {
      SpacedTicksCount(q, t0, es[..|es| - 1], k);
    }
  }

  /** Without new messages, four ticks more than five seconds apart empty the queue, whoever is
      reachable at them and whatever is acknowledged between. */
  lemma FourTicksEmpty<K>(q: Queue<K>, t0: int, es: seq<Event<K>>)
    requires Attempted(q) && Quiet(es) && SpacedTicks(t0, es) && forall k :: k in q ==> q[k].timeout <= t0
    requires Ticks(es) >= 4
    ensures Run(q, es) == map[]
  {
    var r := Run(q, es);
    if k :| k in r {
      SpacedTicksCount(q, t0, es, k);
    }
  }
}
