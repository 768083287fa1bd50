/** The fan-out of a group message over a member list, the loop of `GorupMessageHandle`
    (comit/handles/chathandle.go). */
module FanOut {
  import opened Collections
  import opened SqlRows

  /** Where the sender stands: its id, the users connected to this server, and the server
      recorded for each user connected anywhere. */
  datatype Site = Site(sender: nat, connected: set<nat>, located: map<nat, string>)

  datatype Destination = Sender | Here | At(server: string) | Nowhere

  function Route(site: Site, u: nat): Destination {
    if u == site.sender then Sender
    else if u in site.connected then Here
    else if u in site.located then At(site.located[u])
    else Nowhere
  }

  /** The members of `list` bound for `d`, in order. */
  function Bound(site: Site, list: seq<nat>, d: Destination): seq<nat> {
    if list == [] then [] else
      var before, u := list[..|list| - 1], list[|list| - 1];
      Bound(site, before, d) + if Route(site, u) == d then [u] else []
  }

  /** The pairs to be stored: one for each member but the sender. */
  function Pairs(site: Site, rek: nat, list: seq<nat>): seq<Row> {
    if list == [] then [] else
      var before, u := list[..|list| - 1], list[|list| - 1];
      Pairs(site, rek, before) + if u == site.sender then [] else [(rek, u)]
  }

  /** The lists for the other servers, by server. */
  ghost predicate Remotes(site: Site, list: seq<nat>, remote: map<string, seq<nat>>) {
    && (forall s :: s in remote ==> remote[s] == Bound(site, list, At(s)) != [])
    && (forall u :: u in list && Route(site, u).At? ==> Route(site, u).server in remote)
  }

  /** Member `u` is in the lists as often as in `list`: among the pairs in any case, in `local` if
      connected here, or else in the list of the server it is recorded on; the sender in none. */
  ghost predicate Divided(site: Site, rek: nat, list: seq<nat>, local: seq<nat>, remote: map<string, seq<nat>>, pairs: seq<Row>, u: nat) {
    var n := if u == site.sender then 0 else multiset(list)[u];
    && multiset(pairs)[(rek, u)] == n
    && multiset(local)[u] == (if u in site.connected then n else 0)
    && (forall s :: s in remote ==>
          multiset(remote[s])[u] == if u !in site.connected && u in site.located && site.located[u] == s then n else 0)
    && (n > 0 && u !in site.connected && u in site.located ==> site.located[u] in remote)
  }

  method Split(site: Site, rek: nat, list: seq<nat>)
    returns (local: seq<nat>, remote: map<string, seq<nat>>, pairs: seq<Row>)
    ensures local == Bound(site, list, Here)
    ensures Remotes(site, list, remote)
    ensures pairs == Pairs(site, rek, list)
    ensures forall u :: Divided(site, rek, list, local, remote, pairs, u)
  {
    local, remote, pairs := [], map[], [];
    var i := 0;
    while i < |list|
      invariant 0 <= i <= |list|
      invariant local == Bound(site, list[..i], Here)
      invariant Remotes(site, list[..i], remote)
      invariant pairs == Pairs(site, rek, list[..i])
    {
      var uid := list[i];
      BoundStep(site, list, i, remote);
      assert list[..i + 1][..i] == list[..i];
      i := i + 1;
      if uid == site.sender {
        continue;
      }
      if uid in site.connected {
        local := local + [uid];
      } else if uid in site.located {
        var srv := site.located[uid];
        remote := remote[srv := (if srv in remote then remote[srv] else []) + [uid]];
      }
      pairs := pairs + [(rek, uid)];
    }
    assert list[..|list|] == list;
    forall u ensures Divided(site, rek, list, local, remote, pairs, u) {
      SplitMeans(site, rek, list, remote, u);
    }
  }

  lemma SplitMeans(site: Site, rek: nat, list: seq<nat>, remote: map<string, seq<nat>>, u: nat)
    requires Remotes(site, list, remote)
    ensures Divided(site, rek, list, Bound(site, list, Here), remote, Pairs(site, rek, list), u)
  {
    BoundOnce(site, list, Here, u);
    PairedOnce(site, rek, list, u);
    forall s | s in remote
      ensures multiset(remote[s])[u] == if u != site.sender && u !in site.connected && u in site.located && site.located[u] == s
                                        then multiset(list)[u] else 0
    {
      BoundOnce(site, list, At(s), u);
    }
  }

  lemma BoundStep(site: Site, list: seq<nat>, i: nat, remote: map<string, seq<nat>>)
    requires i < |list| && Remotes(site, list[..i], remote)
    ensures var d := Route(site, list[i]);
            Remotes(site, list[..i + 1],
                    if d.At? then remote[d.server := (if d.server in remote then remote[d.server] else []) + [list[i]]] else remote)
  {
    var u, before, upTo := list[i], list[..i], list[..i + 1];
    assert upTo[..i] == before && upTo[i] == u;
    var d := Route(site, u);
    if d.At? && d.server !in remote {
      NobodyBound(site, before, d);
    }
  }

  /** No member is bound for `d` exactly when its list is empty. */
  lemma NobodyBound(site: Site, list: seq<nat>, d: Destination)
    ensures Bound(site, list, d) == [] <==> forall u :: u in list ==> Route(site, u) != d
  {
    BoundMembers(site, list, d);
    if Bound(site, list, d) != [] {
      assert Bound(site, list, d)[0] in Bound(site, list, d);
    }
  }

  /** Every occurrence of a member in the list is bound for exactly its one destination. */
  lemma {:induction false} BoundOnce(site: Site, list: seq<nat>, d: Destination, u: nat)
    ensures multiset(Bound(site, list, d))[u] == if Route(site, u) == d then multiset(list)[u] else 0
  {
    if list != [] {
      var before, v := list[..|list| - 1], list[|list| - 1];
      BoundOnce(site, before, d, u);
      assert list == before + [v];
    }
  }

  lemma {:induction false} BoundMembers(site: Site, list: seq<nat>, d: Destination)
    ensures forall u :: u in Bound(site, list, d) <==> u in list && Route(site, u) == d
  {
    if list != [] {
      var before, v := list[..|list| - 1], list[|list| - 1];
      BoundMembers(site, before, d);
      assert forall u :: u in list <==> u in before || u == v;
    }
  }

  lemma {:induction false} PairedOnce(site: Site, rek: nat, list: seq<nat>, u: nat)
    ensures multiset(Pairs(site, rek, list))[(rek, u)] == if u == site.sender then 0 else multiset(list)[u]
  {
    if list != [] {
      var before, v := list[..|list| - 1], list[|list| - 1];
      PairedOnce(site, rek, before, u);
      assert multiset(list)[u] == multiset(list[..|list| - 1])[u] + (if u == v then 1 else 0) by {
        assert list == before + [v];
      }
    }
  }

  /** Where a member of the list is bound: connected members here, others to the server they are
      recorded on; the sender nowhere. */
  lemma WhereBound(site: Site, list: seq<nat>, u: nat)
    ensures u in Bound(site, list, Here) <==> u in list && u != site.sender && u in site.connected
    ensures forall s :: u in Bound(site, list, At(s)) <==>
              u in list && u != site.sender && u !in site.connected && u in site.located && site.located[u] == s
  {
    BoundMembers(site, list, Here);
    forall s ensures u in Bound(site, list, At(s)) <==>
              u in list && u != site.sender && u !in site.connected && u in site.located && site.located[u] == s
    {
      BoundMembers(site, list, At(s));
    }
  }

  /** The fan-out is a partition: a member other than the sender gets exactly one stored pair,
      and is in the list of exactly one destination, once. */
  lemma FanOutIsPartition(site: Site, rek: nat, list: seq<nat>, u: nat, d: Destination)
    requires Distinct(list) && u in list && u != site.sender
    ensures multiset(Pairs(site, rek, list))[(rek, u)] == 1
    ensures multiset(Bound(site, list, d))[u] == if d == Route(site, u) then 1 else 0
    ensures Route(site, u) == if u in site.connected then Here else if u in site.located then At(site.located[u]) else Nowhere
  {
    OnceInSet(list, u);
    BoundOnce(site, list, d, u);
    PairedOnce(site, rek, list, u);
  }

  lemma {:induction false} OnceInSet(list: seq<nat>, u: nat)
    requires Distinct(list)
    ensures multiset(list)[u] == if u in list then 1 else 0
  {
    if list != [] {
      var before, v := list[..|list| - 1], list[|list| - 1];
      OnceInSet(before, u);
      assert list == before + [v];
    }
  }

  lemma {:induction false} BoundIsDistinct(site: Site, list: seq<nat>, d: Destination)
    requires Distinct(list)
    ensures Distinct(Bound(site, list, d))
  {
    if list != [] {
      BoundIsDistinct(site, list[..|list| - 1], d);
      BoundMembers(site, list[..|list| - 1], d);
    }
  }

  /** There is a pair exactly if there is another member than the sender. */
  lemma {:induction false} SomePair(site: Site, rek: nat, list: seq<nat>)
    ensures Pairs(site, rek, list) != [] <==> exists u :: u in list && u != site.sender
  {
    if list != [] {
      var before, v := list[..|list| - 1], list[|list| - 1];
      SomePair(site, rek, before);
      if v != site.sender {
        assert v in list;
      } else {
        assert forall u :: u in before ==> u in list;
        assert forall u :: u in list ==> u in before || u == v;
      }
    }
  }

  /** Distinct members make distinct pairs. */
  lemma {:induction false} PairsAreDistinct(site: Site, rek: nat, list: seq<nat>)
    requires Distinct(list)
    ensures Distinct(Pairs(site, rek, list))
    ensures forall i :: 0 <= i < |Pairs(site, rek, list)| ==> Pairs(site, rek, list)[i].0 == rek && Pairs(site, rek, list)[i].1 in list
  {
    if list != [] {
      PairsAreDistinct(site, rek, list[..|list| - 1]);
    }
  }
}
