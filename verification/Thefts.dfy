/** Which messages a tick takes off the queue together with others, told from queue and index
    before the tick, for due messages of one key with different deadlines. */
module Thefts {
  import opened Collections
  import opened RetrySpec
  import opened MinHeaps
  import opened TickSpec

  /** The message's turn changes the index: it is given up or sent again. */
  predicate Touches(q: Queue<AckMessage>, m: AckMessage, t: Moment)
    requires m in q
  {
    GivesUp(q, m, t) || Retried(q, m, t.Reachable())
  }

  // ---------- what the index holds ----------

  /** The message the index holds for `key` after the turns `taken`. */
  function Holder(b: Book, taken: seq<AckMessage>, t: Moment, key: Key): set<AckMessage> {
    if taken == [] then if key in b.index then {b.index[key]} else {} else
      var before, k := taken[..|taken| - 1], taken[|taken| - 1];
      if k !in b.queue || KeyOf(k) != key || !Touches(b.queue, k, t) then Holder(b, before, t, key)
      else if GivesUp(b.queue, k, t) then {} else {k}
  }

  /** The next in turn has not been dealt with and carries its first stamp. */
  lemma NextIsNew(b: Book, before: seq<AckMessage>, k: AckMessage, t: Moment)
    requires Legal(b, before, t) && Foremost(TurnsOn(b, before, t).queue, k, t.now)
    ensures k in DueAt(b.queue, t.now) && k !in before && k !in Stolen(b, before, t)
    ensures b.queue[k] == TurnsOn(b, before, t).queue[k]
    ensures forall x :: x in b.queue && x !in before && x !in Stolen(b, before, t) ==> b.queue[k].timeout <= b.queue[x].timeout
  {
    TurnsLose(b, before, t);
    var q, lost := b.queue, Stolen(b, before, t);
    TurnsAddUp(q, Elements(before), lost, {}, t.now, t.Reachable(), TurnsOn(b, before, t).queue, k);
    assert forall x :: x in Elements(before) <==> x in before;
  }

  lemma {:induction false} HolderIs(b: Book, taken: seq<AckMessage>, t: Moment, key: Key)
    requires Legal(b, taken, t)
    ensures var index := TurnsOn(b, taken, t).index; Holder(b, taken, t, key) == if key in index then {index[key]} else {}
  {
    if taken != [] {
      HolderIs(b, taken[..|taken| - 1], t, key);
      NextIsNew(b, taken[..|taken| - 1], taken[|taken| - 1], t);
    }
  }

  lemma {:induction false} HolderHasKey(b: Book, taken: seq<AckMessage>, t: Moment, key: Key)
    requires SoundIndex(b.index)
    ensures forall x :: x in Holder(b, taken, t, key) ==> KeyOf(x) == key
  {
    if taken != [] {
      HolderHasKey(b, taken[..|taken| - 1], t, key);
    }
  }

  /** None of these changes what the index holds for `key`. */
  ghost predicate NoToucher(b: Book, s: seq<AckMessage>, t: Moment, key: Key) {
    forall k :: k in s && k in b.queue && KeyOf(k) == key ==> !Touches(b.queue, k, t)
  }

  lemma {:induction false} HolderAtFirst(b: Book, taken: seq<AckMessage>, t: Moment, key: Key)
    requires NoToucher(b, taken, t, key)
    ensures Holder(b, taken, t, key) == Holder(b, [], t, key)
  {
    if taken != [] {
      HolderAtFirst(b, taken[..|taken| - 1], t, key);
    }
  }

  lemma {:induction false} HolderSince(b: Book, taken: seq<AckMessage>, j: nat, t: Moment)
    requires j < |taken| && taken[j] in b.queue && Retried(b.queue, taken[j], t.Reachable())
    requires NoToucher(b, taken[j + 1..], t, KeyOf(taken[j]))
    ensures Holder(b, taken, t, KeyOf(taken[j])) == {taken[j]}
  {
    var last := |taken| - 1;
    if j < last {
      assert taken[last] in taken[j + 1..];
      assert taken[..last][j + 1..] == taken[j + 1..][..last - j - 1];
      HolderSince(b, taken[..last], j, t);
    }
  }

  /** `x` came to be held at its own turn `j`, and no later one changed it. */
  ghost predicate HeldSince(b: Book, taken: seq<AckMessage>, j: nat, x: AckMessage, t: Moment)
    requires j < |taken|
  {
    taken[j] == x && x in b.queue && Retried(b.queue, x, t.Reachable()) && NoToucher(b, taken[j + 1..], t, KeyOf(x))
  }

  lemma {:induction false} HeldBecause(b: Book, taken: seq<AckMessage>, t: Moment, x: AckMessage)
    requires Holder(b, taken, t, KeyOf(x)) == {x}
    ensures (NoToucher(b, taken, t, KeyOf(x)) && Holder(b, [], t, KeyOf(x)) == {x})
            || exists j :: 0 <= j < |taken| && HeldSince(b, taken, j, x, t)
  {
    if taken != [] {
      var last := |taken| - 1;
      var before, k := taken[..last], taken[last];
      if k in b.queue && KeyOf(k) == KeyOf(x) && Touches(b.queue, k, t) {
        assert HeldSince(b, taken, last, x, t);
      } else {
        HeldBecause(b, before, t, x);
        if j :| 0 <= j < last && HeldSince(b, before, j, x, t) {
          assert taken[j + 1..] == before[j + 1..] + [k];
          assert HeldSince(b, taken, j, x, t);
        } else {
          assert taken == before + [k];
        }
      }
    }
  }

  // ---------- who steals whom ----------

  /** The message of turn `i` is given up and takes `x` along. */
  ghost predicate Steals(b: Book, taken: seq<AckMessage>, i: nat, x: AckMessage, t: Moment)
    requires i < |taken|
  {
    var m := taken[i];
    && m in b.queue && GivesUp(b.queue, m, t) && x in b.queue && x != m
    && Holder(b, taken[..i], t, KeyOf(m)) == {x} && (x in taken[..i] ==> Retried(b.queue, x, t.Reachable()))
  }

  /** What the index holds has not been stolen. */
  lemma {:induction false} HeldIsNotStolen(b: Book, taken: seq<AckMessage>, t: Moment, x: AckMessage)
    requires Legal(b, taken, t) && SoundIndex(b.index) && Holder(b, taken, t, KeyOf(x)) == {x}
    ensures x !in Stolen(b, taken, t)
  {
    if taken != [] {
      var before, k := taken[..|taken| - 1], taken[|taken| - 1];
      NextIsNew(b, before, k, t);
      EntriesSince(b, before, t, KeyOf(k));
      if x != k {
        HeldIsNotStolen(b, before, t, x);
      }
    }
  }

  lemma RobbedIsHeld(b: Book, before: seq<AckMessage>, k: AckMessage, t: Moment, x: AckMessage)
    requires Legal(b, before, t) && SoundIndex(b.index) && Foremost(TurnsOn(b, before, t).queue, k, t.now)
    ensures x in Robbed(TurnsOn(b, before, t), k, t) <==>
              && k in b.queue && GivesUp(b.queue, k, t) && x in b.queue && x != k
              && Holder(b, before, t, KeyOf(k)) == {x} && (x in before ==> Retried(b.queue, x, t.Reachable()))
  {
    NextIsNew(b, before, k, t);
    HolderIs(b, before, t, KeyOf(k));
    HolderHasKey(b, before, t, KeyOf(k));
    TurnsLose(b, before, t);
    assert x in Elements(before) <==> x in before;
    if Holder(b, before, t, KeyOf(k)) == {x} {
      assert x in Holder(b, before, t, KeyOf(k));
      HeldIsNotStolen(b, before, t, x);
    }
  }

  lemma {:induction false} StolenOnes(b: Book, taken: seq<AckMessage>, t: Moment, x: AckMessage)
    requires Legal(b, taken, t) && SoundIndex(b.index)
    ensures x in Stolen(b, taken, t) <==> exists i :: 0 <= i < |taken| && Steals(b, taken, i, x, t)
  {
    if taken != [] {
      var last := |taken| - 1;
      var before := taken[..last];
      StolenOnes(b, before, t, x);
      RobbedIsHeld(b, before, taken[last], t, x);
      assert forall i :: 0 <= i < last ==> before[..i] == taken[..i];
      assert forall i :: 0 <= i < last ==> (Steals(b, before, i, x, t) <==> Steals(b, taken, i, x, t));
      assert Steals(b, taken, last, x, t) <==> x in Robbed(TurnsOn(b, before, t), taken[last], t);
    }
  }

  // ---------- told from deadlines ----------

  /** The receiver's due messages of `m`'s key that change the index come no earlier than `m`. */
  ghost predicate FirstToTouch(b: Book, m: AckMessage, t: Moment)
    requires m in b.queue
  {
    forall k :: k in DueAt(b.queue, t.now) && KeyOf(k) == KeyOf(m) && Touches(b.queue, k, t) ==>
      b.queue[m].timeout <= b.queue[k].timeout
  }

  /** `x` is stolen before its turn: the index holds it, and the first to change this is a message
      given up earlier. */
  ghost predicate Early(b: Book, x: AckMessage, t: Moment)
    requires x in b.queue
  {
    && KeyOf(x) in b.index && b.index[KeyOf(x)] == x
    && exists m :: m in DueAt(b.queue, t.now) && KeyOf(m) == KeyOf(x) && GivesUp(b.queue, m, t)
                   && b.queue[m].timeout < b.queue[x].timeout && FirstToTouch(b, m, t)
  }

  /** The due messages that get their turn. */
  ghost function Heard(b: Book, t: Moment): set<AckMessage> {
    set m | m in DueAt(b.queue, t.now) && !Early(b, m, t)
  }

  /** Of the messages that get their turn, `m` is the next after `x` to change the index at their key. */
  ghost predicate NextToTouch(b: Book, x: AckMessage, m: AckMessage, t: Moment)
    requires x in b.queue && m in b.queue
  {
    && b.queue[x].timeout < b.queue[m].timeout
    && forall k :: k in Heard(b, t) && KeyOf(k) == KeyOf(m) && Touches(b.queue, k, t) ==>
         b.queue[k].timeout <= b.queue[x].timeout || b.queue[m].timeout <= b.queue[k].timeout
  }

  /** `x` is stolen after it was sent again: the next to change the index is given up. */
  ghost predicate Late(b: Book, x: AckMessage, t: Moment)
    requires x in b.queue
  {
    && x in Heard(b, t) && Retried(b.queue, x, t.Reachable())
    && exists m :: m in Heard(b, t) && KeyOf(m) == KeyOf(x) && GivesUp(b.queue, m, t) && NextToTouch(b, x, m, t)
  }

  /** The messages a tick will steal, told before it. */
  ghost function Doomed(b: Book, t: Moment): set<AckMessage> {
    set x | x in b.queue && (Early(b, x, t) || Late(b, x, t))
  }

  /** Where one is taken at turn `i`, messages neither taken nor stolen before are due no earlier. */
  lemma AtTurn(b: Book, taken: seq<AckMessage>, i: nat, t: Moment)
    requires Legal(b, taken, t) && i < |taken|
    ensures var m, lost := taken[i], Stolen(b, taken[..i], t);
            && m in DueAt(b.queue, t.now) && m !in taken[..i] && m !in lost && lost <= Stolen(b, taken, t)
            && Legal(b, taken[..i], t)
            && forall x :: x in b.queue && x !in taken[..i] && x !in lost ==> b.queue[m].timeout <= b.queue[x].timeout
  {
    LegalPrefix(b, taken, i, t);
    NextIsNew(b, taken[..i], taken[i], t);
  }

  lemma StolenMonotone(b: Book, taken: seq<AckMessage>, i: nat, j: nat, t: Moment)
    requires Legal(b, taken, t) && i < j < |taken|
    ensures Stolen(b, taken[..i], t) <= Stolen(b, taken[..j], t)
  {
    LegalPrefix(b, taken, j, t);
    LegalPrefix(b, taken[..j], i, t);
    assert taken[..j][..i] == taken[..i];
  }

  /** Turns of one key come in the order of the deadlines. */
  lemma InOrderOfDeadlines(b: Book, taken: seq<AckMessage>, i: nat, j: nat, t: Moment)
    requires Legal(b, taken, t) && TiesApart(b, t) && i < j < |taken| && KeyOf(taken[i]) == KeyOf(taken[j])
    ensures taken[i] in b.queue && taken[j] in b.queue && b.queue[taken[i]].timeout < b.queue[taken[j]].timeout
  {
    AtTurn(b, taken, i, t);
    AtTurn(b, taken, j, t);
    StolenMonotone(b, taken, i, j, t);
    assert taken[i] == taken[..j][i] && taken[i] in taken[..j];
    assert forall k :: k in taken[..i] ==> k in taken[..j];
  }

  /** A thief before turn `i` has changed the index at the key of the stolen. */
  lemma StolenHasToucher(b: Book, taken: seq<AckMessage>, i: nat, k: AckMessage, t: Moment)
    requires Legal(b, taken, t) && SoundIndex(b.index) && i < |taken| && k in Stolen(b, taken[..i], t)
    ensures !NoToucher(b, taken[..i], t, KeyOf(k))
  {
    AtTurn(b, taken, i, t);
    StolenOnes(b, taken[..i], t, k);
    var j :| 0 <= j < i && Steals(b, taken[..i], j, k, t);
    var m := taken[..i][j];
    HolderHasKey(b, taken[..i][..j], t, KeyOf(m));
    assert k in Holder(b, taken[..i][..j], t, KeyOf(m));
    assert m in taken[..i] && Touches(b.queue, m, t);
  }

  /** One stolen that had no turn before is `Early`. */
  lemma UntakenIsEarly(b: Book, taken: seq<AckMessage>, i: nat, x: AckMessage, t: Moment)
    requires Legal(b, taken, t) && SoundIndex(b.index) && TiesApart(b, t)
    requires i < |taken| && Steals(b, taken, i, x, t) && x !in taken[..i]
    ensures Early(b, x, t)
  {
    var m, key := taken[i], KeyOf(taken[i]);
    AtTurn(b, taken, i, t);
    HolderHasKey(b, taken[..i], t, key);
    assert x in Holder(b, taken[..i], t, key);
    HeldBecause(b, taken[..i], t, x);
    HeldIsNotStolen(b, taken[..i], t, x);
    assert NoToucher(b, taken[..i], t, key);
    forall k | k in DueAt(b.queue, t.now) && KeyOf(k) == key && Touches(b.queue, k, t)
      ensures b.queue[m].timeout <= b.queue[k].timeout
    {
      if k in Stolen(b, taken[..i], t) {
        StolenHasToucher(b, taken, i, k, t);
      }
    }
    assert FirstToTouch(b, m, t);
  }

  /** A due message has its turn, or is `Early`. */
  lemma TakenOrEarly(b: Book, taken: seq<AckMessage>, x: AckMessage, t: Moment)
    requires Ended(b, taken, t) && SoundIndex(b.index) && TiesApart(b, t) && x in DueAt(b.queue, t.now) && x !in taken
    ensures Early(b, x, t)
  {
    TickLoses(b, taken, t);
    assert x in Stolen(b, taken, t);
    StolenOnes(b, taken, t, x);
    var i :| 0 <= i < |taken| && Steals(b, taken, i, x, t);
    UntakenIsEarly(b, taken, i, x, t);
  }

  /** One that is stolen at turn `i` has no later turn. */
  lemma NoTurnAfter(b: Book, taken: seq<AckMessage>, i: nat, x: AckMessage, t: Moment)
    requires Legal(b, taken, t) && SoundIndex(b.index) && i < |taken| && Steals(b, taken, i, x, t)
    ensures x in Stolen(b, taken, t) && x !in taken[i..]
  {
    StolenOnes(b, taken, t, x);
    forall j | i <= j < |taken| ensures taken[j] != x {
      if i < j {
        AtTurn(b, taken, j, t);
        assert taken[..j][..i] == taken[..i];
        assert Steals(b, taken[..j], i, x, t);
        StolenOnes(b, taken[..j], t, x);
      }
    }
  }

  lemma EarlyIsStolen(b: Book, taken: seq<AckMessage>, x: AckMessage, t: Moment)
    requires Ended(b, taken, t) && SoundIndex(b.index) && TiesApart(b, t) && x in b.queue && Early(b, x, t)
    ensures x in Stolen(b, taken, t) && x !in taken
  {
    var m :| m in DueAt(b.queue, t.now) && KeyOf(m) == KeyOf(x) && GivesUp(b.queue, m, t)
             && b.queue[m].timeout < b.queue[x].timeout && FirstToTouch(b, m, t);
    if m !in taken {
      TakenOrEarly(b, taken, m, t);
    }
    var i :| 0 <= i < |taken| && taken[i] == m;
    forall j | 0 <= j < i
      ensures taken[j] != x && (taken[j] in b.queue && KeyOf(taken[j]) == KeyOf(m) ==> !Touches(b.queue, taken[j], t))
    {
      AtTurn(b, taken, j, t);
      if KeyOf(taken[j]) == KeyOf(m) {
        InOrderOfDeadlines(b, taken, j, i, t);
      }
    }
    assert NoToucher(b, taken[..i], t, KeyOf(m));
    HolderAtFirst(b, taken[..i], t, KeyOf(m));
    assert x !in taken[..i] && Steals(b, taken, i, x, t);
    NoTurnAfter(b, taken, i, x, t);
    SplitAt(taken, i, x);
  }

  /** So exactly the messages of `Heard` have their turn. */
  lemma HeardAreTaken(b: Book, taken: seq<AckMessage>, t: Moment)
    requires Ended(b, taken, t) && SoundIndex(b.index) && TiesApart(b, t)
    ensures forall m :: m in taken <==> m in Heard(b, t)
  {
    forall m: AckMessage ensures m in taken <==> m in Heard(b, t) {
      TurnsLose(b, taken, t);
      assert m in taken <==> m in Elements(taken);
      if m in b.queue && Early(b, m, t) {
        EarlyIsStolen(b, taken, m, t);
      } else if m in DueAt(b.queue, t.now) && m !in taken {
        TakenOrEarly(b, taken, m, t);
      }
    }
  }

  // ---------- the exact conditions ----------

  lemma LateIsStolen(b: Book, taken: seq<AckMessage>, x: AckMessage, t: Moment)
    requires Ended(b, taken, t) && SoundIndex(b.index) && TiesApart(b, t) && x in b.queue && Late(b, x, t)
    ensures x in Stolen(b, taken, t)
  {
    HeardAreTaken(b, taken, t);
    var m :| m in Heard(b, t) && KeyOf(m) == KeyOf(x) && GivesUp(b.queue, m, t) && NextToTouch(b, x, m, t);
    var j :| 0 <= j < |taken| && taken[j] == x;
    var i :| 0 <= i < |taken| && taken[i] == m;
    if i < j {
      InOrderOfDeadlines(b, taken, i, j, t);
    }
    forall l | j < l < i ensures KeyOf(taken[l]) == KeyOf(x) ==> taken[l] in b.queue && !Touches(b.queue, taken[l], t) {
      if KeyOf(taken[l]) == KeyOf(x) {
        InOrderOfDeadlines(b, taken, j, l, t);
        InOrderOfDeadlines(b, taken, l, i, t);
        assert taken[l] in Heard(b, t);
      }
    }
    assert NoToucher(b, taken[..i][j + 1..], t, KeyOf(x));
    HolderSince(b, taken[..i], j, t);
    assert Steals(b, taken, i, x, t);
    NoTurnAfter(b, taken, i, x, t);
  }

  /** A toucher among those heard does not come between turns without touchers. */
  lemma NoneBetween(b: Book, taken: seq<AckMessage>, j: nat, i: nat, k: AckMessage, t: Moment)
    requires Ended(b, taken, t) && SoundIndex(b.index) && TiesApart(b, t)
    requires j < i < |taken| && KeyOf(taken[j]) == KeyOf(taken[i]) && NoToucher(b, taken[..i][j + 1..], t, KeyOf(taken[j]))
    requires taken[j] in b.queue && taken[i] in b.queue
    requires k in Heard(b, t) && KeyOf(k) == KeyOf(taken[i]) && Touches(b.queue, k, t)
    ensures b.queue[k].timeout <= b.queue[taken[j]].timeout || b.queue[taken[i]].timeout <= b.queue[k].timeout
  {
    HeardAreTaken(b, taken, t);
    var l :| 0 <= l < |taken| && taken[l] == k;
    if l < j {
      InOrderOfDeadlines(b, taken, l, j, t);
    } else if i < l {
      InOrderOfDeadlines(b, taken, i, l, t);
    }
  }

  /** One stolen that had its turn before is `Late`. */
  lemma TakenIsLate(b: Book, taken: seq<AckMessage>, i: nat, x: AckMessage, t: Moment)
    requires Ended(b, taken, t) && SoundIndex(b.index) && TiesApart(b, t)
    requires i < |taken| && Steals(b, taken, i, x, t) && x in taken[..i]
    ensures Late(b, x, t)
  {
    var m := taken[i];
    HeardAreTaken(b, taken, t);
    HolderHasKey(b, taken[..i], t, KeyOf(m));
    assert x in Holder(b, taken[..i], t, KeyOf(m));
    HeldBecause(b, taken[..i], t, x);
    var j :| 0 <= j < i && HeldSince(b, taken[..i], j, x, t);
    InOrderOfDeadlines(b, taken, j, i, t);
    forall k | k in Heard(b, t) && KeyOf(k) == KeyOf(m) && Touches(b.queue, k, t)
      ensures b.queue[k].timeout <= b.queue[x].timeout || b.queue[m].timeout <= b.queue[k].timeout
    {
      NoneBetween(b, taken, j, i, k, t);
    }
    assert NextToTouch(b, x, m, t);
  }

  lemma StolenIsDoomed(b: Book, taken: seq<AckMessage>, x: AckMessage, t: Moment)
    requires Ended(b, taken, t) && SoundIndex(b.index) && TiesApart(b, t) && x in b.queue
    ensures x in Stolen(b, taken, t) <==> Early(b, x, t) || Late(b, x, t)
  {
    if Early(b, x, t) {
      EarlyIsStolen(b, taken, x, t);
    } else if Late(b, x, t) {
      LateIsStolen(b, taken, x, t);
    } else if x in Stolen(b, taken, t) {
      StolenOnes(b, taken, t, x);
      var i :| 0 <= i < |taken| && Steals(b, taken, i, x, t);
      if x !in taken[..i] {
        UntakenIsEarly(b, taken, i, x, t);
      } else {
        TakenIsLate(b, taken, i, x, t);
      }
    }
  }

  /** A tick steals exactly the messages foretold. */
  lemma StolenAreDoomed(b: Book, taken: seq<AckMessage>, t: Moment)
    requires Ended(b, taken, t) && SoundIndex(b.index) && TiesApart(b, t)
    ensures Stolen(b, taken, t) == Doomed(b, t)
  {
    StolenAreQueued(b, taken, t);
    forall x | x in b.queue ensures x in Stolen(b, taken, t) <==> x in Doomed(b, t) {
      StolenIsDoomed(b, taken, x, t);
    }
  }

  /** A due message that a tick does not send again. */
  predicate Leaves(b: Book, x: AckMessage, t: Moment)
    requires x in b.queue
  {
    b.queue[x].timeout < t.now && !Retried(b.queue, x, t.Reachable())
  }

  /** The exact condition of the refinement: whoever is stolen would have left the queue anyway. */
  lemma RefinesIff(b: Book, taken: seq<AckMessage>, t: Moment)
    requires Ended(b, taken, t) && SoundIndex(b.index) && TiesApart(b, t)
    ensures TurnsOn(b, taken, t).queue == AfterTick(b.queue, t.now, t.Reachable())
       <==> forall x :: x in Doomed(b, t) ==> Leaves(b, x, t)
  {
    StolenAreDoomed(b, taken, t);
    RefinesUnlessStolen(b, taken, t);
    assert forall x :: x in b.queue ==> (x in AfterTick(b.queue, t.now, t.Reachable()) <==> !Leaves(b, x, t));
  }

  /** The exact condition of the panic: one is stolen before its turn, and every other queued
      message is stolen or leaves the queue. */
  lemma StarvedIff(b: Book, taken: seq<AckMessage>, t: Moment)
    requires Ended(b, taken, t) && SoundIndex(b.index) && TiesApart(b, t)
    ensures Starved(b, taken, t) <==>
              && (exists x :: x in b.queue && Early(b, x, t))
              && (forall z :: z in b.queue ==> Leaves(b, z, t) || z in Doomed(b, t))
  {
    StolenAreDoomed(b, taken, t);
    TickLoses(b, taken, t);
    StarvedByTheft(b, taken, t);
    var after := AfterTick(b.queue, t.now, t.Reachable());
    assert after - Doomed(b, t) == map[] <==> forall z :: z in after ==> z in Doomed(b, t);
    assert forall x :: x in b.queue ==> (x in after <==> !Leaves(b, x, t));
    HeardAreTaken(b, taken, t);
    forall x | x in b.queue ensures Early(b, x, t) <==> x in Stolen(b, taken, t) && x !in Elements(taken) {
      assert x in Elements(taken) <==> x in taken;
    }
    if !(Stolen(b, taken, t) <= Elements(taken)) {
      var x :| x in Stolen(b, taken, t) && x !in Elements(taken);
      assert x in b.queue && Early(b, x, t);
    }
  }

  /** What is known of a tick before it: `q` is the queue it leaves, `panicked` whether it read
      slot 0 of an empty heap. */
  ghost predicate Foretold(b: Book, t: Moment, q: Queue<AckMessage>, panicked: bool) {
    var after := Next(b.queue, Event.Tick(t.now, t.Reachable()));
    && q == after - Doomed(b, t)
    && (q == after <==> forall x :: x in Doomed(b, t) ==> Leaves(b, x, t))
    && (panicked <==> (exists x :: x in b.queue && Early(b, x, t))
                      && (forall z :: z in b.queue ==> Leaves(b, z, t) || z in Doomed(b, t)))
  }

  lemma TickIsForetold(b: Book, taken: seq<AckMessage>, t: Moment)
    requires Ended(b, taken, t) && SoundIndex(b.index)
    ensures TiesApart(b, t) ==> Foretold(b, t, TurnsOn(b, taken, t).queue, Starved(b, taken, t))
  {
    if TiesApart(b, t) {
      TickLoses(b, taken, t);
      StolenAreDoomed(b, taken, t);
      RefinesIff(b, taken, t);
      StarvedIff(b, taken, t);
    }
  }
}
