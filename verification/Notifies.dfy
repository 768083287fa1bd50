/** Stored notifications (comit/modle/notifie.go) and the read, send, delete sequence of
    `PullNotifie` (comit/handles/pullmessage.go), whose three parts other requests may separate. */
module Notifies {

  datatype Notifie = Notifie(id: nat, uid: nat, kind: nat, body: string)

  /** The table; every notification ever created, by id; and those handed to a write for their user. */
  datatype State = State(table: map<nat, Notifie>, created: map<nat, Notifie>, handed: set<Notifie>)

  /** `Write` hands a list read earlier to the user's connection, which may refuse it;
      `Delete` removes the rows of a list written before. */
  datatype Step = Create(n: Notifie) | Write(uid: nat, batch: set<Notifie>) | Delete(ids: set<nat>)

  const START := State(map[], map[], {})

  function Apply(s: State, e: Step): State {
    match e
    case Create(n) => s.(table := s.table[n.id := n], created := s.created[n.id := n])
    case Write(_, batch) => s.(handed := s.handed + batch)
    case Delete(ids) => s.(table := s.table - ids)
  }

  /** Ids are the table's auto-increment; a list read holds notifications of that user; only
      ids of lists already handed over are deleted. */
  ghost predicate Enabled(s: State, e: Step) {
    match e
    case Create(n) => n.id !in s.created
    case Write(uid, batch) => forall n :: n in batch ==> n.uid == uid && n.id in s.created && s.created[n.id] == n
    case Delete(ids) => forall id :: id in ids ==> id in s.created && s.created[id] in s.handed
  }

  function Replay(log: seq<Step>): State {
    if log == [] then START else Apply(Replay(log[..|log| - 1]), log[|log| - 1])
  }

  ghost predicate AllEnabled(log: seq<Step>) {
    if log == [] then true else AllEnabled(log[..|log| - 1]) && Enabled(Replay(log[..|log| - 1]), log[|log| - 1])
  }

  /** The notifications of `uid`, as `NotifieList` reads them. */
  function ListOf(s: State, uid: nat): set<Notifie> {
    set id | id in s.table && s.table[id].uid == uid :: s.table[id]
  }

  function Ids(batch: set<Notifie>): set<nat> {
    set n | n in batch :: n.id
  }

  ghost predicate Accounted(s: State) {
    && (forall id :: id in s.table ==> id in s.created && s.table[id] == s.created[id] && s.created[id].id == id)
    && (forall id :: id in s.created ==> s.created[id].id == id && (id in s.table || s.created[id] in s.handed))
    && (forall n :: n in s.handed ==> n.id in s.created && s.created[n.id] == n)
  }

  /** Under any interleaving of creations and pulls, every notification ever created is still
      stored, or was handed to a write for its own user. */
  lemma {:induction false} NoneForgotten(log: seq<Step>)
    requires AllEnabled(log)
    ensures Accounted(Replay(log))
  {
    if log != [] {
      NoneForgotten(log[..|log| - 1]);
    }
  }

  /** Whatever happened since a list was read, it may still be written, and once written its
      ids may be deleted: the two later parts of a pull are always allowed. */
  lemma {:induction false} PullMayContinue(log: seq<Step>, i: nat, uid: nat)
    requires AllEnabled(log) && i <= |log|
    ensures var batch := ListOf(Replay(log[..i]), uid);
            && Enabled(Replay(log), Write(uid, batch))
            && (batch <= Replay(log).handed ==> Enabled(Replay(log), Delete(Ids(batch))))
  {
    NoneForgotten(log);
    if i < |log| {
      var last := |log| - 1;
      assert log[..last][..i] == log[..i];
      PullMayContinue(log[..last], i, uid);
    } else {
      assert log[..i] == log;
    }
  }
}
