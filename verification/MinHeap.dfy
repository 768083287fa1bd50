/** Heap order on the sequence of deadlines, independent of the objects that carry them. */
module HeapOrder {

  /** Slot `j` is a child of slot `i` in the implicit binary tree. */
  predicate Child(i: int, j: int) {
    0 <= i && (j == 2 * i + 1 || j == 2 * i + 2)
  }

  ghost predicate Ordered(ts: seq<int>) {
    forall i, j {:trigger Child(i, j)} :: 0 <= i < j < |ts| && Child(i, j) ==> ts[i] <= ts[j]
  }

  /** Heap order of the first `n` slots except on the edge above `hole` (if `up`) and those
      below it (if `down`); the parent of the hole still bounds the hole's children. */
  ghost predicate OrderedBut(ts: seq<int>, n: int, hole: int, up: bool, down: bool)
    requires n <= |ts|
  {
    && (forall i, j {:trigger Child(i, j)} :: 0 <= i < j < n && Child(i, j) && !(up && j == hole) && !(down && i == hole)
          ==> ts[i] <= ts[j])
    && (forall p, c {:trigger Child(p, hole), Child(hole, c)} :: 0 <= p < hole < c < n && Child(p, hole) && Child(hole, c) ==> ts[p] <= ts[c])
  }

  function Swapped<T>(s: seq<T>, i: int, j: int): seq<T>
    requires 0 <= i < |s| && 0 <= j < |s|
  {
    s[i := s[j]][j := s[i]]
  }

  lemma SiftUpStep(ts: seq<int>, n: int, i: int, j: int)
    requires 0 <= i < j < n <= |ts| && Child(i, j)
    requires OrderedBut(ts, n, j, true, false) && ts[j] <= ts[i]
    ensures OrderedBut(Swapped(ts, i, j), n, i, true, false)
  {
  }

  /** The child that takes its parent's place: of two with the same deadline, the right one. */
  function Heir(ts: seq<int>, i: nat, n: int): (j: nat)
    requires 2 * i + 1 < n <= |ts|
    ensures 2 * i < j < n
  {
    if 2 * i + 2 < n && ts[2 * i + 2] <= ts[2 * i + 1] then 2 * i + 2 else 2 * i + 1
  }

  lemma SiftDownStep(ts: seq<int>, n: int, i: int, j: int, up: bool)
    requires 0 <= i && 2 * i + 1 < n <= |ts| && j == Heir(ts, i, n)
    requires OrderedBut(ts, n, i, up, true) && ts[j] <= ts[i]
    ensures OrderedBut(Swapped(ts, i, j), n, j, false, true)
  {
    assert Child(i, j) && forall c :: i < c < n && Child(i, c) ==> ts[j] <= ts[c];
  }

  /** Slots before the one sifted up are not below the root. */
  lemma {:induction false} RootIsBelow(ts: seq<int>, n: int, hole: int, k: nat)
    requires k < hole < n <= |ts| && OrderedBut(ts, n, hole, true, false)
    ensures ts[0] <= ts[k]
  {
    if k > 0 {
      assert Child((k - 1) / 2, k);
      RootIsBelow(ts, n, hole, (k - 1) / 2);
    }
  }

  /** What is earlier than its children need not sink any deeper. */
  lemma Settled(ts: seq<int>, n: int, i: nat, i0: nat)
    requires i0 <= i <= n <= |ts| && OrderedBut(ts, n, i, i == i0, true)
    requires 2 * i + 1 < n ==> ts[i] < ts[Heir(ts, i, n)]
    ensures OrderedBut(ts, n, i0, i == i0, false)
  {
  }

  /** The root carries the earliest deadline. */
  lemma {:induction false} RootIsEarliest(ts: seq<int>, k: nat)
    requires Ordered(ts) && k < |ts|
    ensures ts[0] <= ts[k]
  {
    if k > 0 {
      var p := (k - 1) / 2;
      assert Child(p, k);
      RootIsEarliest(ts, p);
    }
  }
}

/** The retry queue's binary heap: `MinHeap` of comit/manage/ackmessage.go together
    with the Go library's `container/heap` algorithms that drive it. */
module MinHeaps {
  import opened Words
  import opened Collections
  import opened HeapOrder

  class AckMessage {
    const body: bytes
    const msgid: uint64
    const gropOrOne: byte
    const receiver: uint32
    var timeout: int
    var index: int   // own slot in the heap, -1 once popped
    var ntime: byte  // number of times sent

    constructor (body: bytes, msgid: uint64, gropOrOne: byte, receiver: uint32)
      ensures this.body == body && this.msgid == msgid
      ensures this.gropOrOne == gropOrOne && this.receiver == receiver
      ensures timeout == 0 && index == 0 && ntime == 0
    {
      this.body, this.msgid, this.gropOrOne, this.receiver := body, msgid, gropOrOne, receiver;
      timeout, index, ntime := 0, 0, 0;
    }
  }

  class MinHeap {
    var items: seq<AckMessage>

    constructor ()
      ensures items == []
    {
      items := [];
    }

    /** The queue holds exactly the messages of `all`, and each of them knows its slot;
        in particular none is queued twice. */
    ghost predicate Holds(all: set<AckMessage>)
      reads this, all
    {
      |items| == |all| && forall i :: 0 <= i < |items| ==> items[i] in all && items[i].index == i
    }

    ghost predicate Indexed()
      reads this, items
    {
      forall i :: 0 <= i < |items| ==> items[i].index == i
    }

    ghost function Times(): (ts: seq<int>)
      reads this, items
    {
      seq(|items|, i requires 0 <= i < |items| reads this, items => items[i].timeout)
    }

    /** Heap order by deadline, and every queued message knows its slot. */
    ghost predicate Valid()
      reads this, items
    {
      Indexed() && Ordered(Times())
    }

    ghost function Items(): (s: set<AckMessage>)
      reads this
    {
      set m | m in items
    }

    lemma ItemsAreHeld()
      requires Indexed()
      ensures Holds(Items())
    {
      DistinctCardinality(items);
    }

    lemma HeldAreItems(all: set<AckMessage>)
      requires Holds(all)
      ensures Items() == all
    {
      DistinctCardinality(items);
      SubsetOfSameSize(Items(), all);
    }

    /** `ts` lists the deadlines of the queued messages, slot by slot. */
    ghost predicate Deadlines(ts: seq<int>)
      reads this, items
    {
      |ts| == |items| && forall i :: 0 <= i < |items| ==> ts[i] == items[i].timeout
    }

    predicate Less(i: int, j: int)
      reads this, items
      requires 0 <= i < |items| && 0 <= j < |items|
    {
      items[i].timeout <= items[j].timeout
    }

    method Swap(i: int, j: int, ghost all: set<AckMessage>)
      requires 0 <= i < |items| && 0 <= j < |items|
      requires Holds(all)
      modifies this, all`index
      ensures Holds(all)
      ensures items == Swapped(old(items), i, j)
    {
      items := items[i := items[j]][j := items[i]];
      items[i].index := i;
      items[j].index := j;
    }

    /** heap.up: sift slot `j0` towards the root; slots from `n` on are not looked at. */
    method Up(j0: int, ghost n: int, ghost all: set<AckMessage>, ghost ts0: seq<int>)
      returns (ghost ts: seq<int>)
      requires 0 <= j0 < n <= |items|
      requires Holds(all) && Deadlines(ts0) && OrderedBut(ts0, n, j0, true, false)
      modifies this, all`index
      ensures Holds(all) && |items| == old(|items|) && Deadlines(ts)
      ensures forall k :: n <= k < |items| ==> items[k] == old(items)[k]
      ensures OrderedBut(ts, n, j0, false, false)
      ensures items[0] == old(items)[if ts0[j0] <= ts0[0] then j0 else 0]
    {
      var j := j0;
      ts := ts0;
      while true
        invariant 0 <= j < n <= |items| == old(|items|)
        invariant Holds(all) && Deadlines(ts) && OrderedBut(ts, n, j, true, false)
        invariant items[j] == old(items)[j0] && ts[j] == ts0[j0]
        invariant if j == 0 then ts0[j0] <= ts0[0] else items[0] == old(items)[0] && ts[0] == ts0[0]
        invariant forall k :: n <= k < |items| ==> items[k] == old(items)[k]
        decreases j
      {
        var i := if j == 0 then 0 else (j - 1) / 2;  // Go's division truncates: -1/2 == 0
        if i == j || !Less(j, i) {
          if j > 0 {
            RootIsBelow(ts, n, j, i);
          }
          break;
        }
        SiftUpStep(ts, n, i, j);
        Swap(i, j, all);
        ts := Swapped(ts, i, j);
        j := i;
      }
    }

    /** One step of heap.down. */
    method Sink(i: int, j: int, n: int, ghost all: set<AckMessage>, ghost ts0: seq<int>, ghost up: bool) returns (ghost ts: seq<int>)
      requires 0 <= i && 2 * i + 1 < n <= |items| == |ts0| && j == Heir(ts0, i, n)
      requires Holds(all) && Deadlines(ts0) && OrderedBut(ts0, n, i, up, true) && ts0[j] <= ts0[i]
      modifies this, all`index
      ensures Holds(all) && items == Swapped(old(items), i, j)
      ensures Deadlines(ts) && OrderedBut(ts, n, j, false, true)
    {
      SiftDownStep(ts0, n, i, j, up);
      Swap(i, j, all);
      ts := Swapped(ts0, i, j);
    }

    /** heap.down: sift slot `i0` towards the leaves of the first `n` slots. */
    method Down(i0: int, n: int, ghost all: set<AckMessage>, ghost ts0: seq<int>)
      returns (moved: bool, ghost ts: seq<int>)
      requires 0 <= i0 <= n <= |items|
      requires Holds(all) && Deadlines(ts0) && OrderedBut(ts0, n, i0, true, true)
      modifies this, all`index
      ensures Holds(all) && |items| == old(|items|) && Deadlines(ts)
      ensures forall k :: n <= k < |items| ==> items[k] == old(items)[k]
      ensures OrderedBut(ts, n, i0, !moved, false)
      ensures moved == (2 * i0 + 1 < n && ts0[Heir(ts0, i0, n)] <= ts0[i0])
      ensures moved ==> items[i0] == old(items)[Heir(ts0, i0, n)]
    {
      ghost var sinks := 2 * i0 + 1 < n && ts0[Heir(ts0, i0, n)] <= ts0[i0];
      ghost var heir := if sinks then items[Heir(ts0, i0, n)] else null;
      var i := i0;
      ts := ts0;
      while true
        invariant i0 <= i <= n <= |items| == old(|items|)
        invariant Holds(all) && Deadlines(ts) && OrderedBut(ts, n, i, i == i0, true)
        invariant if i == i0 then items == old(items) && ts == ts0 else sinks && items[i0] == heir
        invariant forall k :: n <= k < |items| ==> items[k] == old(items)[k]
        decreases n - i
      {
        var j1 := 2 * i + 1;
        if j1 >= n {
          Settled(ts, n, i, i0);
          break;
        }
        var j := j1;
        var j2 := j1 + 1;
        if j2 < n && Less(j2, j1) {
          j := j2;
        }
        assert j == Heir(ts, i, n);
        if !Less(j, i) {
          Settled(ts, n, i, i0);
          break;
        }
        ts := Sink(i, j, n, all, ts, i == i0);
        i := j;
      }
      moved := i > i0;
    }

    /** MinHeap.Push: append, with the new last slot as index. */
    method Push(x: AckMessage)
      modifies this, x`index
      ensures items == old(items) + [x] && x.index == |old(items)|
    {
      var n := |items|;
      x.index := n;
      items := items + [x];
    }

    /** MinHeap.Pop: take the last slot off and mark the message as no longer queued. */
    method Pop() returns (x: AckMessage)
      requires items != []
      modifies this, items`index
      ensures items == old(items)[..|old(items)| - 1]
      ensures x == old(items)[|old(items)| - 1] && x.index == -1
      ensures forall m :: m in old(items) && m != x ==> m.index == old(m.index)
    {
      var n := |items|;
      x := items[n - 1];
      x.index := -1;
      items := items[..n - 1];
    }

    method UpLast(ghost all: set<AckMessage>, ghost ts0: seq<int>) returns (ghost ts: seq<int>)
      requires items != [] && Holds(all) && Deadlines(ts0) && OrderedBut(ts0, |items|, |items| - 1, true, false)
      modifies this, all`index
      ensures Holds(all) && |items| == old(|items|) && Deadlines(ts) && OrderedBut(ts, |items|, |items| - 1, false, false)
      ensures var x, root := old(items)[|items| - 1], old(items)[0]; items[0] == if x.timeout <= root.timeout then x else root
    {
      ts := Up(|items| - 1, |items|, all, ts0);
    }

    /** heap.Push; the new message comes before those of the same deadline. */
    method HeapPush(x: AckMessage)
      requires Valid() && x !in items
      modifies this, x`index, items`index
      ensures Valid() && Items() == old(Items()) + {x} && |items| == |old(items)| + 1
      ensures items[0] == if old(items) == [] || x.timeout <= old(items)[0].timeout then x else old(items)[0]
    {
      ghost var ts := Times() + [x.timeout];
      ItemsAreHeld();
      ghost var all := Items() + {x};
      Push(x);
      ts := UpLast(all, ts);
      HeldAreItems(all);
    }

    /** The repair shared by heap.Remove and heap.Fix: sift slot `i` of the first `n` down,
        and only if it did not move, up. */
    method DownOrUp(i: int, n: int, ghost all: set<AckMessage>, ghost ts0: seq<int>)
      returns (ghost ts: seq<int>)
      requires 0 <= i < n <= |items|
      requires Holds(all) && Deadlines(ts0) && OrderedBut(ts0, n, i, true, true)
      modifies this, all`index
      ensures Holds(all) && |items| == old(|items|) && Deadlines(ts)
      ensures forall k :: n <= k < |items| ==> items[k] == old(items)[k]
      ensures OrderedBut(ts, n, i, false, false)
    {
      var moved;
      moved, ts := Down(i, n, all, ts0);
      if !moved {
        ts := Up(i, n, all, ts);
      }
    }

    /** heap.Remove */
    method HeapRemove(i: int) returns (x: AckMessage)
      requires Valid() && 0 <= i < |items|
      modifies this, items`index
      ensures Valid() && x == old(items)[i] && x.index == -1
      ensures Items() == old(Items()) - {x} && |items| == |old(items)| - 1
    {
      var n := |items| - 1;
      ghost var all := Items();
      ItemsAreHeld();
      ghost var ts := Times();
      if n != i {
        Swap(i, n, all);
        ts := Swapped(ts, i, n);
        ts := DownOrUp(i, n, all, ts);
      }
      x := PopLast(all, ts);
    }

    lemma RootIsFirst()
      requires Valid() && items != []
      ensures forall m :: m in Items() ==> items[0].timeout <= m.timeout
    {
      forall m | m in items ensures items[0].timeout <= m.timeout {
        var k :| 0 <= k < |items| && items[k] == m;
        RootIsEarliest(Times(), k);
      }
    }

    /** heap.Pop */
    method HeapPop() returns (x: AckMessage)
      requires Valid() && items != []
      modifies this, items`index
      ensures Valid() && x == old(items)[0] && x.index == -1
      ensures Items() == old(Items()) - {x} && |items| == |old(items)| - 1
      ensures forall m :: m in old(Items()) ==> x.timeout <= m.timeout
    {
      var n := |items| - 1;
      ghost var all := Items();
      ItemsAreHeld();
      ghost var ts := Times();
      RootIsFirst();
      Swap(0, n, all);
      ts := Swapped(ts, 0, n);
      var moved;
      moved, ts := Down(0, n, all, ts);
      x := PopLast(all, ts);
    }

    /** Pop of the last slot once the others are in heap order. */
    method PopLast(ghost all: set<AckMessage>, ghost ts: seq<int>) returns (x: AckMessage)
      requires items != [] && Holds(all) && Deadlines(ts)
      requires OrderedBut(ts, |items| - 1, 0, false, false)
      modifies this, all`index
      ensures Valid() && x == old(items)[|old(items)| - 1] && x.index == -1
      ensures Items() == all - {x} && |items| == |old(items)| - 1
    {
      x := Pop();
      HeldAreItems(all - {x});
    }

    /** MinHeap.Delete: remove whatever sits in the slot the message claims to be in. */
    method Delete(item: AckMessage)
      requires Valid() && (item.index == -1 || 0 <= item.index < |items|)
      modifies this, items`index
      ensures Valid()
      ensures old(item.index) == -1 ==> items == old(items) && forall m :: m in items ==> m.index == old(m.index)
      ensures old(item.index) != -1 ==>
                && Items() == old(Items()) - {old(items)[old(item.index)]}
                && |items| == |old(items)| - 1 && old(items)[old(item.index)].index == -1
    {
      if item.index == -1 {
        return;
      }
      var x := HeapRemove(item.index);
    }
  }

  lemma {:induction false} DistinctCardinality(s: seq<AckMessage>)
    requires forall i :: 0 <= i < |s| ==> s[i].index == i
    ensures |set m | m in s| == |s|
  {
    if s != [] {
      var last := |s| - 1;
      DistinctCardinality(s[..last]);
      assert (set m | m in s) == (set m | m in s[..last]) + {s[last]};
    }
  }
}
