/** The client's event bus, client/flutter_im/lib/uitls/eventbus.dart. */
module EventBuses {
  import opened Collections

  /** Identity of a callback. */
  type Callback = nat

  /** What a callback does to the bus while it runs. */
  datatype Action =
    | Subscribe(event: string, f: Callback)
    | Unsubscribe(event: string, f: Callback)
    | Clear(event: string)

  /** Dart's growable list of callbacks: an object shared by whoever holds it. */
  class CallbackList {
    var items: seq<Callback>

    constructor ()
      ensures items == []
    {
      items := [];
    }

    method Add(f: Callback)
      modifies this
      ensures items == old(items) + [f]
    {
      items := items + [f];
    }

    /** List.remove: drop the first occurrence, if any. */
    method Remove(f: Callback)
      modifies this
      ensures items == Without(old(items), f)
      ensures FirstGone(old(items), f, items)
    {
      WithoutMeans(items, f);
      var i := 0;
      while i < |items|
        invariant i <= |items| && items == old(items) && f !in items[..i]
      {
        if items[i] == f {
          WithoutAt(items, f, i);
          items := items[..i] + items[i + 1..];
          return;
        }
        i := i + 1;
      }
      WithoutAbsent(items, f);
    }
  }

  function Without(s: seq<Callback>, f: Callback): seq<Callback> {
    if s == [] then [] else if s[0] == f then s[1..] else [s[0]] + Without(s[1..], f)
  }

  function Reversed(s: seq<Callback>): seq<Callback> {
    if s == [] then [] else [s[|s| - 1]] + Reversed(s[..|s| - 1])
  }

  /** Removing what does not occur in the first `n` items leaves them alone. */
  lemma {:induction false} WithoutKeepsPrefix(s: seq<Callback>, f: Callback, n: nat)
    requires n <= |s| && f !in s[..n]
    ensures n <= |Without(s, f)| && Without(s, f)[..n] == s[..n]
  {
    if n > 0 {
      assert s[0] == s[..n][0];
      assert s[1..][..n - 1] == s[..n][1..];
      WithoutKeepsPrefix(s[1..], f, n - 1);
    }
  }

  // ---------- what an emit does, on values ----------

  /** The list an emit walks over, and whether the bus still holds it for the event. */
  datatype View = View(items: seq<Callback>, attached: bool)

  function ActOn(v: View, a: Action, event: string): View {
    if a.event != event || !v.attached then v
    else match a
      case Subscribe(_, f) => v.(items := v.items + [f])
      case Unsubscribe(_, f) => v.(items := Without(v.items, f))
      case Clear(_) => v.(attached := false)
  }

  function ActAll(v: View, actions: seq<Action>, event: string): View {
    if actions == [] then v else ActOn(ActAll(v, actions[..|actions| - 1], event), actions[|actions| - 1], event)
  }

  /** What each callback does when it is called at a slot: the same callback may act differently
      at another turn. */
  type Script = map<(nat, Callback), seq<Action>>

  function ActionsOf(script: Script, slot: nat, f: Callback): seq<Action> {
    if (slot, f) in script then script[(slot, f)] else []
  }

  /** The callbacks called from slot `n - 1` down to slot 0, and whether a slot was missing. */
  datatype Emitted = Emitted(calls: seq<Callback>, rangeError: bool)

  function EmitFrom(v: View, n: nat, script: Script, event: string): Emitted
    decreases n
  {
    if n == 0 then Emitted([], false)
    else if |v.items| < n then Emitted([], true)
    else
      var f := v.items[n - 1];
      var rest := EmitFrom(ActAll(v, ActionsOf(script, n - 1, f), event), n - 1, script, event);
      Emitted([f] + rest.calls, rest.rangeError)
  }

  // ---------- when every subscriber is called once ----------

  predicate IsDrop(a: Action, event: string, waiting: seq<Callback>) {
    a.Unsubscribe? && a.event == event && a.f in waiting
  }

  /** Some action takes one of `waiting` off the list of `event` while the bus still holds it. */
  ghost predicate Drops(actions: seq<Action>, event: string, waiting: seq<Callback>) {
    exists i :: 0 <= i < |actions| && IsDrop(actions[i], event, waiting) && Clear(event) !in actions[..i]
  }

  /** From slot `n - 1` down, until one of them clears the event, no callback of `start` drops one
      whose turn is still to come. */
  ghost predicate Spared(start: seq<Callback>, n: nat, script: Script, event: string)
    requires n <= |start|
  {
    n > 0 ==>
      var actions := ActionsOf(script, n - 1, start[n - 1]);
      !Drops(actions, event, start[..n - 1]) && (Clear(event) in actions || Spared(start, n - 1, script, event))
  }

  /** Nobody subscribes a member of `start` to `event` again. */
  ghost predicate NoneAgain(actions: seq<Action>, event: string, start: seq<Callback>) {
    forall f :: f in start ==> Subscribe(event, f) !in actions
  }

  lemma LastAction(actions: seq<Action>, event: string, waiting: seq<Callback>)
    requires actions != []
    ensures var before, a := actions[..|actions| - 1], actions[|actions| - 1];
            && (Clear(event) in actions <==> Clear(event) in before || a == Clear(event))
            && (Drops(actions, event, waiting) <==> Drops(before, event, waiting) || (Clear(event) !in before && IsDrop(a, event, waiting)))
  {
    var last := |actions| - 1;
    var before := actions[..last];
    assert forall i :: 0 <= i <= last ==> actions[..i] == before[..i];
    assert actions == before + [actions[last]] && before[..last] == before;
    if Drops(before, event, waiting) {
      var i :| 0 <= i < last && IsDrop(before[i], event, waiting) && Clear(event) !in before[..i];
      assert IsDrop(actions[i], event, waiting) && Clear(event) !in actions[..i];
    }
  }

  /** Actions that drop none of the first `n` leave the first `n` slots alone, and the bus holds
      the list until one of them clears the event. */
  lemma {:induction false} SlotsStay(v: View, actions: seq<Action>, event: string, n: nat)
    requires n <= |v.items| && (v.attached ==> !Drops(actions, event, v.items[..n]))
    ensures var w := ActAll(v, actions, event);
            n <= |w.items| && w.items[..n] == v.items[..n] && w.attached == (v.attached && Clear(event) !in actions)
  {
    if actions != [] {
      LastAction(actions, event, v.items[..n]);
      var before, a := actions[..|actions| - 1], actions[|actions| - 1];
      SlotsStay(v, before, event, n);
      var u := ActAll(v, before, event);
      if a.Unsubscribe? && a.event == event && u.attached {
        WithoutKeepsPrefix(u.items, a.f, n);
      }
    }
  }

  /** If each removes at most subscribers already called, and stops mattering once the event is
      cleared, all are called, once each, last subscribed first, whatever else is added. */
  lemma {:induction false} SparedAreCalled(v: View, start: seq<Callback>, n: nat, script: Script, event: string)
    requires n <= |start| && n <= |v.items| && v.items[..n] == start[..n]
    requires v.attached ==> Spared(start, n, script, event)
    ensures EmitFrom(v, n, script, event) == Emitted(Reversed(start[..n]), false)
    decreases n
  {
    if n > 0 {
      var f := v.items[n - 1];
      assert v.items[..n][n - 1] == start[..n][n - 1] == start[n - 1];
      assert v.items[..n][..n - 1] == v.items[..n - 1] && start[..n][..n - 1] == start[..n - 1];
      SlotsStay(v, ActionsOf(script, n - 1, f), event, n - 1);
      SparedAreCalled(ActAll(v, ActionsOf(script, n - 1, f), event), start, n - 1, script, event);
    }
  }

  /** The first `n` slots are those of `start`, and no later slot holds one of these callbacks. */
  ghost predicate Aligned(items: seq<Callback>, start: seq<Callback>, n: nat)
    requires n <= |start|
  {
    n <= |items| && items[..n] == start[..n] && forall i :: n <= i < |items| ==> items[i] !in start[..n]
  }

  ghost predicate NotFrom(items: seq<Callback>, h: Callback, k: nat) {
    forall i :: k <= i < |items| ==> items[i] != h
  }

  /** Removal takes the first occurrence and moves what stands behind it one slot forward. */
  lemma {:induction false} WithoutAt(s: seq<Callback>, f: Callback, j: nat)
    requires j < |s| && s[j] == f && f !in s[..j]
    ensures Without(s, f) == s[..j] + s[j + 1..]
  {
    if j > 0 {
      assert s[0] == s[..j][0] && s[1..][..j - 1] == s[..j][1..];
      WithoutAt(s[1..], f, j - 1);
      assert s[..j] == [s[0]] + s[1..][..j - 1];
    }
  }

  /** `t` is `s` without the first occurrence of `f`, or `s` itself if there is none. */
  ghost predicate FirstGone(s: seq<Callback>, f: Callback, t: seq<Callback>) {
    if f !in s then t == s
    else exists j :: 0 <= j < |s| && s[j] == f && f !in s[..j] && t == s[..j] + s[j + 1..]
  }

  lemma WithoutMeans(s: seq<Callback>, f: Callback)
    ensures FirstGone(s, f, Without(s, f))
  {
    if f in s {
      var j := FirstOf(s, f);
      WithoutAt(s, f, j);
    } else {
      WithoutAbsent(s, f);
    }
  }

  lemma {:induction false} FirstOf(s: seq<Callback>, f: Callback) returns (j: nat)
    requires f in s
    ensures j < |s| && s[j] == f && f !in s[..j]
  {
    if s[0] == f {
      j := 0;
    } else {
      j := FirstOf(s[1..], f);
      assert s[..j + 1] == [s[0]] + s[1..][..j];
      j := j + 1;
    }
  }

  lemma {:induction false} WithoutAbsent(s: seq<Callback>, f: Callback)
    requires f !in s
    ensures Without(s, f) == s
  {
    if s != [] {
      WithoutAbsent(s[1..], f);
    }
  }

  /** Nothing moves backwards. */
  lemma {:induction false} WithoutMovesForward(s: seq<Callback>, f: Callback, h: Callback, k: nat)
    requires NotFrom(s, h, k)
    ensures NotFrom(Without(s, f), h, k)
  {
    if s != [] && s[0] != f {
      WithoutMovesForward(s[1..], f, h, if k > 0 then k - 1 else 0);
    }
  }

  lemma AlignedWithout(items: seq<Callback>, start: seq<Callback>, n: nat, f: Callback)
    requires Distinct(start) && n <= |start| && Aligned(items, start, n)
    ensures f !in start[..n] ==> Aligned(Without(items, f), start, n)
    ensures f in start[..n] ==> NotFrom(Without(items, f), start[n - 1], n - 1)
  {
    if f in start[..n] {
      var j :| 0 <= j < n && start[..n][j] == f;
      assert items[..n][j] == items[j];
      assert forall i :: 0 <= i < n ==> items[..n][i] == items[i] == start[i];
      WithoutAt(items, f, j);
      assert start[n - 1] in start[..n];
    } else {
      WithoutKeepsPrefix(items, f, n);
      var w := Without(items, f);
      forall i | n <= i < |w| ensures w[i] !in start[..n] {
        if w[i] in start[..n] {
          WithoutMovesForward(items, f, w[i], n);
        }
      }
    }
  }

  /** One turn, while the bus holds the list: if the actions drop nobody whose turn is to come,
      the slots stay as they are; if they drop one, the next callback in turn has left its slot
      for good. */
  lemma {:induction false} OneTurn(v: View, actions: seq<Action>, event: string, start: seq<Callback>, n: nat)
    requires Distinct(start) && n <= |start| && v.attached && Aligned(v.items, start, n)
    requires NoneAgain(actions, event, start)
    ensures var w := ActAll(v, actions, event);
            && (!Drops(actions, event, start[..n]) ==> Aligned(w.items, start, n) && w.attached == (Clear(event) !in actions))
            && (Drops(actions, event, start[..n]) ==> n > 0 && NotFrom(w.items, start[n - 1], n - 1))
  {
    if actions != [] {
      LastAction(actions, event, start[..n]);
      var before, a := actions[..|actions| - 1], actions[|actions| - 1];
      assert forall b :: b in before ==> b in actions;
      OneTurn(v, before, event, start, n);
      var u := ActAll(v, before, event);
      assert a in actions;
      if a.Unsubscribe? && a.event == event && u.attached {
        if Drops(before, event, start[..n]) {
          WithoutMovesForward(u.items, a.f, start[n - 1], n - 1);
        } else {
          AlignedWithout(u.items, start, n, a.f);
        }
      }
    }
  }

  /** One that drops a callback whose turn is still to come breaks the emit: the callback next in
      turn is not called in its place. */
  lemma {:induction false} DropBreaks(v: View, start: seq<Callback>, n: nat, script: Script, event: string)
    requires Distinct(start) && n <= |start| && v.attached && Aligned(v.items, start, n)
    requires forall key :: key in script ==> NoneAgain(script[key], event, start)
    requires !Spared(start, n, script, event)
    ensures EmitFrom(v, n, script, event) != Emitted(Reversed(start[..n]), false)
    decreases n
  {
    var f, k := v.items[n - 1], n - 1;
    assert v.items[..n][k] == start[..n][k] == f == start[k];
    assert v.items[..n][..k] == v.items[..k] && start[..n][..k] == start[..k];
    assert Aligned(v.items, start, k);
    var actions := ActionsOf(script, k, f);
    OneTurn(v, actions, event, start, k);
    var w := ActAll(v, actions, event);
    var rest := EmitFrom(w, k, script, event);
    assert Reversed(start[..n]) == [f] + Reversed(start[..k]);
    assert ([f] + rest.calls)[1..] == rest.calls && ([f] + Reversed(start[..k]))[1..] == Reversed(start[..k]);
    if Drops(actions, event, start[..k]) {
      assert Reversed(start[..k])[0] == start[..k][k - 1] == start[k - 1];
    } else {
      DropBreaks(w, start, k, script, event);
    }
  }

  /** The exact condition: among scripts that subscribe none of them again, an emit calls all
      subscribers once, last subscribed first, if and only if none drops one still to be called
      before the event is cleared. */
  lemma CalledOnceIff(start: seq<Callback>, script: Script, event: string)
    requires Distinct(start)
    requires forall key :: key in script ==> NoneAgain(script[key], event, start)
    ensures EmitFrom(View(start, true), |start|, script, event) == Emitted(Reversed(start), false)
       <==> Spared(start, |start|, script, event)
  {
    assert start[..|start|] == start;
    if Spared(start, |start|, script, event) {
      SparedAreCalled(View(start, true), start, |start|, script, event);
    } else {
      DropBreaks(View(start, true), start, |start|, script, event);
    }
  }

  /** The callback in slot `k` does not unsubscribe one from a slot before its own. */
  ghost predicate SparesEarlier(start: seq<Callback>, k: nat, script: Script, event: string)
    requires k < |start|
  {
    forall a :: a in ActionsOf(script, k, start[k]) ==> !IsDrop(a, event, start[..k])
  }

  lemma {:induction false} SparedWithoutClear(start: seq<Callback>, n: nat, script: Script, event: string)
    requires n <= |start| && forall key :: key in script ==> Clear(event) !in script[key]
    ensures Spared(start, n, script, event) <==> forall k :: 0 <= k < n ==> SparesEarlier(start, k, script, event)
  {
    if n > 0 {
      SparedWithoutClear(start, n - 1, script, event);
      var actions, waiting := ActionsOf(script, n - 1, start[n - 1]), start[..n - 1];
      assert Drops(actions, event, waiting) <==> !SparesEarlier(start, n - 1, script, event) by {
        if a :| a in actions && IsDrop(a, event, waiting) {
          var i :| 0 <= i < |actions| && actions[i] == a;
          assert IsDrop(actions[i], event, waiting) && Clear(event) !in actions[..i];
        }
      }
    }
  }

  /** If nobody clears the event, the condition is that no callback unsubscribes one subscribed
      before it. Removing one subscribed later, already called, is harmless. */
  lemma CalledOnceIffEarlierSpared(start: seq<Callback>, script: Script, event: string)
    requires Distinct(start)
    requires forall key :: key in script ==> NoneAgain(script[key], event, start) && Clear(event) !in script[key]
    ensures EmitFrom(View(start, true), |start|, script, event) == Emitted(Reversed(start), false)
       <==> forall k :: 0 <= k < |start| ==> SparesEarlier(start, k, script, event)
  {
    CalledOnceIff(start, script, event);
    SparedWithoutClear(start, |start|, script, event);
  }

  /** A callback touches the list of `event` only by adding subscribers, by removing itself,
      or by dropping the whole list. */
  predicate SelfRemoving(actions: seq<Action>, event: string, self: Callback) {
    forall a :: a in actions && a.Unsubscribe? && a.event == event ==> a.f == self
  }

  lemma {:induction false} SelfRemovingSpares(start: seq<Callback>, n: nat, script: Script, event: string)
    requires Distinct(start) && n <= |start|
    requires forall key :: key in script ==> SelfRemoving(script[key], event, key.1)
    ensures Spared(start, n, script, event)
  {
    if n > 0 {
      SelfRemovingSpares(start, n - 1, script, event);
      var actions, waiting := ActionsOf(script, n - 1, start[n - 1]), start[..n - 1];
      assert !Drops(actions, event, waiting);
    }
  }

  /** If the subscribers present at the start differ and each removes at most itself, they are
      all called, once each, last subscribed first, whatever else is added meanwhile, be it one
      of them again. */
  lemma SelfRemovalIsSafe(start: seq<Callback>, script: Script, event: string)
    requires Distinct(start)
    requires forall key :: key in script ==> SelfRemoving(script[key], event, key.1)
    ensures EmitFrom(View(start, true), |start|, script, event) == Emitted(Reversed(start), false)
  {
    SelfRemovingSpares(start, |start|, script, event);
    assert start[..|start|] == start;
    SparedAreCalled(View(start, true), start, |start|, script, event);
  }

  /** The smallest failure: with `a` and `b` subscribed, and `b` removing `a` before its turn, `b`
      is called twice and `a` never. */
  lemma RemovingEarlierBreaks(a: Callback, b: Callback, event: string)
    requires a != b
    ensures EmitFrom(View([a, b], true), 2, map[(1, b) := [Unsubscribe(event, a)]], event) == Emitted([b, b], false)
  {
    var v, w := View([a, b], true), View([b], true);
    var acts := [Unsubscribe(event, a)];
    var script := map[(1, b) := acts];
    assert Without([a, b], a) == [b];
    OneAction(v, acts[0], event);
    assert ActAll(v, acts, event) == w;
    assert EmitFrom(w, 1, script, event) == Emitted([b], false);
  }

  lemma OneAction(v: View, a: Action, event: string)
    ensures ActAll(v, [a], event) == ActOn(v, a, event)
  {
    assert [a][..0] == [];
  }

  /** Removing two at once leaves a slot missing: `b` removes both, and the next turn reads past
      the end of the list. */
  lemma RemovingBothFails(a: Callback, b: Callback, event: string)
    requires a != b
    ensures EmitFrom(View([a, b], true), 2, map[(1, b) := [Unsubscribe(event, a), Unsubscribe(event, b)]], event) == Emitted([b], true)
  {
    var acts := [Unsubscribe(event, a), Unsubscribe(event, b)];
    var script := map[(1, b) := acts];
    assert Without([a, b], a) == [b] && Without([b], b) == [];
    assert acts[..1] == [acts[0]];
    OneAction(View([a, b], true), acts[0], event);
    assert ActAll(View([a, b], true), acts, event) == View([], true);
    assert EmitFrom(View([], true), 1, script, event) == Emitted([], true);
  }

  /** There is one call for each slot, unless a slot is missing at its turn; then the emit ends. */
  lemma {:induction false} CallsAreCounted(v: View, n: nat, script: Script, event: string)
    ensures var e := EmitFrom(v, n, script, event); |e.calls| <= n && (e.rangeError <==> |e.calls| < n)
    decreases n
  {
    if 0 < n <= |v.items| {
      CallsAreCounted(ActAll(v, ActionsOf(script, n - 1, v.items[n - 1]), event), n - 1, script, event);
    }
  }

  /** The calls made so far, and then those still to come. */
  function After(calls: seq<Callback>, e: Emitted): Emitted {
    Emitted(calls + e.calls, e.rangeError)
  }

  lemma {:induction false} EmitStep(calls: seq<Callback>, v: View, n: nat, script: Script, event: string)
    ensures n == 0 ==> After(calls, EmitFrom(v, n, script, event)) == Emitted(calls, false)
    ensures 0 < n && |v.items| < n ==> After(calls, EmitFrom(v, n, script, event)) == Emitted(calls, true)
    ensures 0 < n <= |v.items| ==>
              var f := v.items[n - 1];
              After(calls, EmitFrom(v, n, script, event))
              == After(calls + [f], EmitFrom(ActAll(v, ActionsOf(script, n - 1, f), event), n - 1, script, event))
  {
    if 0 < n <= |v.items| {
      var f := v.items[n - 1];
      Associative(calls, [f], EmitFrom(ActAll(v, ActionsOf(script, n - 1, f), event), n - 1, script, event).calls);
    }
  }

  class EventBus {
    var emap: map<string, CallbackList>  // an event set to null in the source has no entry here

    constructor ()
      ensures emap == map[]
    {
      emap := map[];
    }

    /** No list serves two events. */
    ghost predicate Valid()
      reads this
    {
      forall e, e' :: e in emap && e' in emap && e != e' ==> emap[e] != emap[e']
    }

    method On(event: string, f: Callback)
      requires Valid()
      modifies this, emap.Values
      ensures Valid() && (forall e :: e in emap <==> e in old(emap) || e == event)
      ensures forall e :: e in old(emap) ==> emap[e] == old(emap)[e]
      ensures event !in old(emap) ==> fresh(emap[event])
      ensures emap[event].items == (if event in old(emap) then old(emap[event].items) else []) + [f]
      ensures forall e :: e in old(emap) && e != event ==> emap[e].items == old(emap[e].items)
    {
      if event !in emap {
        var list := new CallbackList();
        emap := emap[event := list];
      }
      emap[event].Add(f);
    }

    method Off(event: string, f: Callback)
      requires Valid()
      modifies emap.Values
      ensures event in emap ==> emap[event].items == Without(old(emap[event].items), f)
      ensures forall e :: e in emap && e != event ==> emap[e].items == old(emap[e].items)
    {
      if event !in emap {
        return;
      }
      emap[event].Remove(f);
    }

    method OffAll(event: string)
      requires Valid()
      modifies this
      ensures Valid() && emap == old(emap) - {event}
    {
      emap := emap - {event};
    }

    /** `list` belongs to no event but `event`. */
    ghost predicate Owned(list: CallbackList, event: string)
      reads this
    {
      forall e :: e in emap && emap[e] == list ==> e == event
    }

    /** `list` as an emit for `event` sees it. */
    ghost function ViewOf(list: CallbackList, event: string): View
      reads this, list
    {
      View(list.items, event in emap && emap[event] == list)
    }

    /** A callback runs: its actions are carried out one after another. */
    method Invoke(actions: seq<Action>, event: string, ghost list: CallbackList)
      requires Valid() && Owned(list, event)
      modifies this, list, emap.Values
      ensures Valid() && Owned(list, event)
      ensures ViewOf(list, event) == ActAll(old(ViewOf(list, event)), actions, event)
      ensures forall e :: e in emap ==> emap[e] in old(emap.Values) || fresh(emap[e])
    {
      var k := 0;
      while k < |actions|
        invariant 0 <= k <= |actions| && Valid() && Owned(list, event)
        invariant ViewOf(list, event) == ActAll(old(ViewOf(list, event)), actions[..k], event)
        invariant forall e :: e in emap ==> emap[e] in old(emap.Values) || fresh(emap[e])
      {
        assert actions[..k + 1][..k] == actions[..k];
        Act(actions[k], event, list);
        k := k + 1;
      }
      assert actions[..k] == actions;
    }

    method Act(a: Action, event: string, ghost list: CallbackList)
      requires Valid() && Owned(list, event)
      modifies this, list, emap.Values
      ensures Valid() && Owned(list, event)
      ensures ViewOf(list, event) == ActOn(old(ViewOf(list, event)), a, event)
      ensures forall e :: e in emap ==> emap[e] in old(emap.Values) || fresh(emap[e])
    {
      match a
      case Subscribe(e, f) =>
        On(e, f);
      case Unsubscribe(e, f) =>
        Off(e, f);
      case Clear(e) =>
        OffAll(e);
    }

    /** Call the subscribers from the last to the first; `script` says what each does. */
    method Emit(event: string, script: Script) returns (calls: seq<Callback>, rangeError: bool)
      requires Valid()
      modifies this, emap.Values
      ensures Valid()
      ensures Emitted(calls, rangeError) == if event in old(emap) then EmitFrom(old(View(emap[event].items, true)), |old(emap[event].items)|, script, event)
                                            else Emitted([], false)
      ensures event in old(emap) ==> |calls| <= |old(emap[event].items)| && (rangeError <==> |calls| < |old(emap[event].items)|)
    {
      if event !in emap {
        return [], false;
      }
      calls := [];
      var list := emap[event];
      var len := |list.items| - 1;
      ghost var whole := EmitFrom(ViewOf(list, event), |list.items|, script, event);
      CallsAreCounted(ViewOf(list, event), |list.items|, script, event);
      var i := len;
      while i > -1
        invariant -1 <= i && Valid() && Owned(list, event)
        invariant After(calls, EmitFrom(ViewOf(list, event), i + 1, script, event)) == whole
        invariant forall e :: e in emap ==> emap[e] in old(emap.Values) || fresh(emap[e])
        decreases i
      {
        EmitStep(calls, ViewOf(list, event), i + 1, script, event);
        if i >= |list.items| {
          return calls, true;
        }
        var f := list.items[i];
        calls := calls + [f];
        Invoke(ActionsOf(script, i, f), event, list);
        i := i - 1;
      }
      EmitStep(calls, ViewOf(list, event), 0, script, event);
      return calls, false;
    }
  }

  /** Each subscriber present at the start is called once, the last subscribed first. */
  lemma {:induction false} ReversedAt(s: seq<Callback>, k: nat)
    requires k < |s|
    ensures |Reversed(s)| == |s| && Reversed(s)[k] == s[|s| - 1 - k]
  {
    if |s| > 1 {
      ReversedAt(s[..|s| - 1], if k > 0 then k - 1 else 0);
    }
  }
}
