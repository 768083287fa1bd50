/** Stored group messages and who still has to receive them (comit/modle/groupmessage.go). */
module GroupTables {
  import opened Collections
  import opened SqlRows

  datatype Message = Message(rek: nat, sender: nat, groupid: nat, msgtype: nat, body: string, time: nat)

  /** `messages` by primary key; `users` the pairs (rek, receiver) in insertion order; `open`
      the messages whose handler stands between its two inserts. */
  datatype Tables = Tables(messages: map<nat, Message>, users: seq<Row>, open: set<nat>)

  datatype Step =
    | CreateMessage(m: Message)
    | CreateUsers(rek: nat, rows: seq<Row>)
    | DeleteUsers(reks: set<nat>, receiver: nat)

  predicate Hit(row: Row, reks: set<nat>, receiver: nat) {
    row.0 in reks && row.1 == receiver
  }

  function Without(users: seq<Row>, reks: set<nat>, receiver: nat): seq<Row> {
    if users == [] then []
    else (if Hit(users[0], reks, receiver) then [] else [users[0]]) + Without(users[1..], reks, receiver)
  }

  function Apply(t: Tables, s: Step): Tables {
    match s
    case CreateMessage(m) =>
      if m.rek in t.messages then t else t.(messages := t.messages[m.rek := m], open := t.open + {m.rek})
    case CreateUsers(rek, rows) => t.(users := t.users + rows, open := t.open - {rek})
    case DeleteUsers(reks, receiver) => t.(users := Without(t.users, reks, receiver))
  }

  /** A handler fans out only the message it has just stored, once, to distinct receivers. */
  ghost predicate Enabled(t: Tables, s: Step) {
    s.CreateUsers? ==> s.rek in t.open && Distinct(s.rows) && forall i :: 0 <= i < |s.rows| ==> s.rows[i].0 == s.rek
  }

  function Replay(log: seq<Step>): Tables {
    if log == [] then Tables(map[], [], {}) else Apply(Replay(log[..|log| - 1]), log[|log| - 1])
  }

  lemma ApplyLast(log: seq<Step>, s: Step)
    ensures Replay(log + [s]) == Apply(Replay(log), s)
  {
    assert (log + [s])[..|log|] == log;
  }

  ghost predicate AllEnabled(log: seq<Step>) {
    if log == [] then true else AllEnabled(log[..|log| - 1]) && Enabled(Replay(log[..|log| - 1]), log[|log| - 1])
  }

  /** No pair twice; every pair has its message; a message about to be fanned out has no pairs yet. */
  ghost predicate Sound(t: Tables) {
    && Distinct(t.users) && t.open <= t.messages.Keys
    && forall i :: 0 <= i < |t.users| ==> t.users[i].0 in t.messages && t.users[i].0 !in t.open
  }

  lemma {:induction false} WithoutIsFilter(users: seq<Row>, reks: set<nat>, receiver: nat)
    ensures forall row :: row in Without(users, reks, receiver) <==> row in users && !Hit(row, reks, receiver)
    ensures Distinct(users) ==> Distinct(Without(users, reks, receiver))
  {
    if users != [] {
      var tail := Without(users[1..], reks, receiver);
      WithoutIsFilter(users[1..], reks, receiver);
      assert forall row :: row in users <==> row == users[0] || row in users[1..];
      if Distinct(users) {
        assert users[0] !in users[1..];
      }
    }
  }

  lemma StepKeepsSound(t: Tables, s: Step)
    requires Sound(t) && Enabled(t, s)
    ensures Sound(Apply(t, s))
  {
    if s.DeleteUsers? {
      WithoutIsFilter(t.users, s.reks, s.receiver);
      var users := Without(t.users, s.reks, s.receiver);
      forall i | 0 <= i < |users| ensures users[i].0 in t.messages && users[i].0 !in t.open {
        assert users[i] in users;
      }
    }
  }

  /** In every reachable state no (rek, user) pair is stored twice and every stored pair has
      its message row, so that the join of a pull finds it. */
  lemma {:induction false} ReachableSound(log: seq<Step>)
    requires AllEnabled(log)
    ensures Sound(Replay(log))
  {
    if log != [] {
      ReachableSound(log[..|log| - 1]);
      StepKeepsSound(Replay(log[..|log| - 1]), log[|log| - 1]);
    }
  }

  predicate Claims(s: Step, row: Row) {
    s.DeleteUsers? && Hit(row, s.reks, s.receiver)
  }

  /** How often the pair was fanned out, and how often it was removed at its receiver's request. */
  function FannedOut(log: seq<Step>, row: Row): nat {
    if log == [] then 0 else
      var before, s := log[..|log| - 1], log[|log| - 1];
      FannedOut(before, row) + if s.CreateUsers? && row in s.rows then 1 else 0
  }

  function Removed(log: seq<Step>, row: Row): nat {
    if log == [] then 0 else
      var before, s := log[..|log| - 1], log[|log| - 1];
      Removed(before, row) + if row in Replay(before).users && Claims(s, row) then 1 else 0
  }

  /** Conservation: over every run a pair has been fanned out as often as it has been removed at
      its receiver's request, plus once if it is stored now. */
  lemma {:induction false} Conservation(log: seq<Step>, row: Row)
    requires AllEnabled(log)
    ensures FannedOut(log, row) == Removed(log, row) + if row in Replay(log).users then 1 else 0
  {
    if log != [] {
      var before, s := log[..|log| - 1], log[|log| - 1];
      Conservation(before, row);
      if s.CreateUsers? {
        ReachableSound(before);
      } else if s.DeleteUsers? {
        WithoutIsFilter(Replay(before).users, s.reks, s.receiver);
      }
    }
  }

  lemma {:induction false} FannedOutGrows(log: seq<Step>, s: Step, row: Row)
    ensures FannedOut(log + [s], row) == FannedOut(log, row) + if s.CreateUsers? && row in s.rows then 1 else 0
    ensures forall rek :: rek in Replay(log).messages ==>
              rek in Replay(log + [s]).messages && Replay(log + [s]).messages[rek] == Replay(log).messages[rek]
  {
    assert (log + [s])[..|log|] == log;
  }

  /** Later statements take back neither a fan-out nor a message. */
  lemma {:induction false} FannedOutStays(log: seq<Step>, longer: seq<Step>, row: Row)
    requires log <= longer
    ensures FannedOut(longer, row) >= FannedOut(log, row)
    ensures forall rek :: rek in Replay(log).messages ==>
              rek in Replay(longer).messages && Replay(longer).messages[rek] == Replay(log).messages[rek]
  {
    if |log| < |longer| {
      FannedOutStays(log, longer[..|longer| - 1], row);
    } else {
      assert log == longer;
    }
  }

  /** A pair fanned out at step `i` and claimed by no later request of its receiver is stored
      at the end, and so is its message, as it was then. */
  lemma {:induction false} NothingLost(log: seq<Step>, i: nat, row: Row)
    requires AllEnabled(log) && i < |log| && log[i].CreateUsers? && row in log[i].rows
    requires forall j :: i < j < |log| ==> !Claims(log[j], row)
    ensures row in Replay(log).users && row.0 in Replay(log[..i]).messages
    ensures row.0 in Replay(log).messages && Replay(log).messages[row.0] == Replay(log[..i]).messages[row.0]
  {
    var last := |log| - 1;
    if i == last {
      ReachableSound(log);
    } else {
      assert log[..last][..i] == log[..i];
      NothingLost(log[..last], i, row);
      if log[last].DeleteUsers? {
        WithoutIsFilter(Replay(log[..last]).users, log[last].reks, log[last].receiver);
      }
    }
  }

  /** A pair once fanned out and not stored now was claimed by its receiver since. */
  lemma {:induction false} GoneMeansClaimed(log: seq<Step>, i: nat, row: Row)
    requires AllEnabled(log) && i < |log| && log[i].CreateUsers? && row in log[i].rows
    requires row !in Replay(log).users
    ensures exists j :: i < j < |log| && Claims(log[j], row)
  {
    if forall j :: i < j < |log| ==> !Claims(log[j], row) {
      NothingLost(log, i, row);
    }
  }

  // ---------- the join of a pull ----------

  /** LEFT JOIN of a receiver's pairs with the messages. */
  function Joined(t: Tables, users: seq<Row>, receiver: nat): seq<(nat, Option<Message>)> {
    if users == [] then []
    else
      var head := users[0];
      (if head.1 != receiver then []
       else [(head.0, if head.0 in t.messages then Some(t.messages[head.0]) else None)])
      + Joined(t, users[1..], receiver)
  }

  /** Pairs are joined in the order they were inserted in. */
  lemma {:induction false} JoinedInOrder(t: Tables, users: seq<Row>, more: seq<Row>, receiver: nat)
    ensures Joined(t, users + more, receiver) == Joined(t, users, receiver) + Joined(t, more, receiver)
  {
    if users == [] {
      assert users + more == more;
    } else {
      JoinedInOrder(t, users[1..], more, receiver);
      assert (users + more)[0] == users[0] && (users + more)[1..] == users[1..] + more;
      var u := users[0];
      Associative(if u.1 != receiver then [] else [(u.0, if u.0 in t.messages then Some(t.messages[u.0]) else None)],
                  Joined(t, users[1..], receiver), Joined(t, more, receiver));
    }
  }

  /** In a sound state the join yields, for each pair of the receiver, its very message. */
  lemma {:induction false} JoinIsComplete(t: Tables, users: seq<Row>, receiver: nat)
    requires forall row :: row in users ==> row.0 in t.messages
    ensures forall rek :: (rek, receiver) in users ==> (rek, Some(t.messages[rek])) in Joined(t, users, receiver)
    ensures forall p :: p in Joined(t, users, receiver) ==> (p.0, receiver) in users && p.1 == Some(t.messages[p.0])
    ensures Distinct(users) ==> Distinct(Joined(t, users, receiver))
  {
    if users != [] {
      JoinIsComplete(t, users[1..], receiver);
      assert forall row :: row in users <==> row == users[0] || row in users[1..];
    }
  }
}
