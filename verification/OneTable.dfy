/** The table of stored one-to-one messages (comit/modle/onemessage.go): its statements as
    steps, and what every run of them keeps. */
module OneTable {

  datatype Onemessage = Onemessage(rek: nat, sender: nat, receiver: nat, msgtype: nat, body: string, time: nat)

  /** Rows by primary key. */
  type Table = map<nat, Onemessage>

  datatype Step = Insert(row: Onemessage) | Delete(reks: set<nat>, receiver: nat)

  /** INSERT fails on a taken primary key and then changes nothing; DELETE takes the rows that
      match both conditions. */
  function Apply(t: Table, s: Step): Table {
    match s
    case Insert(row) => if row.rek in t then t else t[row.rek := row]
    case Delete(reks, receiver) => map k | k in t && !(k in reks && t[k].receiver == receiver) :: t[k]
  }

  function Replay(log: seq<Step>): Table {
    if log == [] then map[] else Apply(Replay(log[..|log| - 1]), log[|log| - 1])
  }

  predicate Held(t: Table, r: Onemessage) {
    r.rek in t && t[r.rek] == r
  }

  /** The step stores row `r`. */
  predicate Accepts(t: Table, s: Step, r: Onemessage) {
    s.Insert? && s.row == r && r.rek !in t
  }

  /** The step is a request of `r`'s own receiver that names `r`. */
  predicate Claims(s: Step, r: Onemessage) {
    s.Delete? && r.rek in s.reks && s.receiver == r.receiver
  }

  function Accepted(log: seq<Step>, r: Onemessage): nat {
    if log == [] then 0 else
      var before, s := log[..|log| - 1], log[|log| - 1];
      Accepted(before, r) + if Accepts(Replay(before), s, r) then 1 else 0
  }

  function Removed(log: seq<Step>, r: Onemessage): nat {
    if log == [] then 0 else
      var before, s := log[..|log| - 1], log[|log| - 1];
      Removed(before, r) + if Held(Replay(before), r) && Claims(s, r) then 1 else 0
  }

  /** Once accepted, always accepted; and a row that goes in has been. */
  lemma {:induction false} AcceptedGrows(log: seq<Step>, s: Step, r: Onemessage)
    ensures Accepted(log + [s], r) >= Accepted(log, r)
    ensures Accepts(Replay(log), s, r) ==> Accepted(log + [s], r) > 0
  {
    assert (log + [s])[..|log|] == log;
  }

  lemma {:induction false} AcceptedStays(log: seq<Step>, longer: seq<Step>, r: Onemessage)
    requires log <= longer
    ensures Accepted(longer, r) >= Accepted(log, r)
  {
    if |log| < |longer| {
      AcceptedStays(log, longer[..|longer| - 1], r);
    } else {
      assert log == longer;
    }
  }

  /** Conservation: over every run, a row has been accepted as often as it has been removed at
      its receiver's request, plus once if it is stored now. */
  lemma {:induction false} Conservation(log: seq<Step>, r: Onemessage)
    ensures Accepted(log, r) == Removed(log, r) + if Held(Replay(log), r) then 1 else 0
  {
    if log != [] {
      Conservation(log[..|log| - 1], r);
    }
  }

  /** A row accepted at some time is stored now or was removed at its receiver's request. */
  lemma {:induction false} AcceptedIsHeldOrRemoved(log: seq<Step>, r: Onemessage)
    requires Accepted(log, r) > 0
    ensures Held(Replay(log), r) || Removed(log, r) > 0
  {
    Conservation(log, r);
  }

  /** Nothing accepted is lost: a row stored at step `i` and claimed by no later request of its
      receiver is stored, unaltered, at the end, whatever else happened. */
  lemma {:induction false} NothingLost(log: seq<Step>, i: nat, r: Onemessage)
    requires i < |log| && Accepts(Replay(log[..i]), log[i], r)
    requires forall j :: i < j < |log| ==> !Claims(log[j], r)
    ensures Held(Replay(log), r)
  {
    var last := |log| - 1;
    if i < last {
      assert log[..last][..i] == log[..i];
      NothingLost(log[..last], i, r);
    }
  }

  /** A row not stored now, but accepted once, was claimed by its receiver since. */
  lemma {:induction false} GoneMeansClaimed(log: seq<Step>, i: nat, r: Onemessage)
    requires i < |log| && Accepts(Replay(log[..i]), log[i], r) && !Held(Replay(log), r)
    ensures exists j :: i < j < |log| && Claims(log[j], r)
  {
    if forall j :: i < j < |log| ==> !Claims(log[j], r) {
      NothingLost(log, i, r);
    }
  }

  // ---------- what a pull finds ----------

  /** The rows stored for a receiver. */
  function Pending(t: Table, receiver: nat): set<Onemessage> {
    set k | k in t && t[k].receiver == receiver :: t[k]
  }

  /** `order` lists the rows stored for `receiver` in some order. */
  predicate Lists(order: seq<Onemessage>, t: Table, receiver: nat) {
    && (forall r :: r in order ==> r in Pending(t, receiver))
    && (forall r :: r in Pending(t, receiver) ==> r in order)
  }

  /** LIMIT of a first page. */
  function FirstPage<T>(order: seq<T>, size: nat): seq<T> {
    if |order| <= size then order else order[..size]
  }

  /** An accepted message that its receiver has not claimed is in the answer to the receiver's
      next pull, unless more are waiting than a page holds; and the answer holds only messages
      for that receiver. */
  lemma UnclaimedIsPulled(log: seq<Step>, i: nat, r: Onemessage, order: seq<Onemessage>, size: nat)
    requires i < |log| && Accepts(Replay(log[..i]), log[i], r)
    requires forall j :: i < j < |log| ==> !Claims(log[j], r)
    requires Lists(order, Replay(log), r.receiver)
    ensures |order| <= size ==> r in FirstPage(order, size)
    ensures forall m :: m in FirstPage(order, size) ==> m.receiver == r.receiver
  {
    NothingLost(log, i, r);
    assert r in Pending(Replay(log), r.receiver);
    forall m | m in FirstPage(order, size) ensures m.receiver == r.receiver {
      assert m in order;
    }
  }
}
