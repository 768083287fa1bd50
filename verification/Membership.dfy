/** Friend and group membership behind a Redis cache: comit/rediscache/usercache.go and
    groupcache.go read it, logic/models/friend.go and groupchat.go change it. */
module Membership {
  import opened Collections
  import opened SqlRows

  /** The members recorded for `key`, in row order. */
  function MembersOf(rows: seq<Row>, key: nat): seq<nat> {
    if rows == [] then [] else (if rows[0].0 == key then [rows[0].1] else []) + MembersOf(rows[1..], key)
  }

  /** The rows a DELETE leaves: those that do not pair `key` with one of `members`. */
  function Deleted(rows: seq<Row>, key: nat, members: set<nat>): seq<Row> {
    if rows == [] then [] else (if rows[0].0 == key && rows[0].1 in members then [] else [rows[0]]) + Deleted(rows[1..], key, members)
  }

  lemma {:induction false} MembersAreRows(rows: seq<Row>, key: nat, m: nat)
    ensures m in MembersOf(rows, key) <==> (key, m) in rows
  {
    if rows != [] {
      MembersAreRows(rows[1..], key, m);
      assert (key, m) in rows <==> (key, m) == rows[0] || (key, m) in rows[1..];
    }
  }

  lemma {:induction false} MembersOfConcat(rows: seq<Row>, more: seq<Row>, key: nat)
    ensures MembersOf(rows + more, key) == MembersOf(rows, key) + MembersOf(more, key)
  {
    if rows == [] {
      assert rows + more == more;
    } else {
      MembersOfConcat(rows[1..], more, key);
      assert (rows + more)[0] == rows[0] && (rows + more)[1..] == rows[1..] + more;
      Associative(if rows[0].0 == key then [rows[0].1] else [], MembersOf(rows[1..], key), MembersOf(more, key));
    }
  }

  /** A DELETE for one key does not touch the members of another, and takes exactly the named
      ones from its own. */
  lemma {:induction false} MembersAfterDelete(rows: seq<Row>, key: nat, members: set<nat>, other: nat)
    ensures other != key ==> MembersOf(Deleted(rows, key, members), other) == MembersOf(rows, other)
    ensures forall m :: m in MembersOf(Deleted(rows, key, members), key) <==> m in MembersOf(rows, key) && m !in members
  {
    if rows != [] {
      MembersAfterDelete(rows[1..], key, members, other);
      var head := if rows[0].0 == key && rows[0].1 in members then [] else [rows[0]];
      MembersOfConcat(head, Deleted(rows[1..], key, members), other);
      MembersOfConcat(head, Deleted(rows[1..], key, members), key);
    }
  }

  lemma {:induction false} DeletedRows(rows: seq<Row>, key: nat, members: set<nat>)
    ensures forall row :: row in Deleted(rows, key, members) <==> row in rows && !(row.0 == key && row.1 in members)
  {
    if rows != [] {
      DeletedRows(rows[1..], key, members);
      assert forall row :: row in rows <==> row == rows[0] || row in rows[1..];
    }
  }

  /** The linear search both checks end with. */
  method Find(ids: seq<nat>, member: nat) returns (found: bool)
    ensures found <==> member in ids
  {
    var i := 0;
    while i < |ids|
      invariant i <= |ids| && member !in ids[..i]
    {
      if ids[i] == member {
        return true;
      }
      i := i + 1;
    }
    return false;
  }

  const MEMBERS_HEAD := "INSERT INTO groupchat_users (groupid,userid) VALUES"

  /** A membership table and its cache of sets. Both services share them. */
  class Relation {
    var rows: seq<Row>
    var cache: map<nat, set<nat>>

    constructor ()
      ensures rows == [] && cache == map[] && Coherent()
    {
      rows, cache := [], map[];
    }

    /** A cached set is the table's set. */
    ghost predicate Coherent()
      reads this
    {
      forall key :: key in cache ==> cache[key] == set m | m in MembersOf(rows, key)
    }

    /** `FriendCheck` and `GroupMebersCheck`: on a miss fill the cache from the table. Redis
        refuses to add an empty list, and the error is ignored. */
    method Check(key: nat, member: nat, tableOk: bool) returns (found: bool)
      requires Coherent()
      modifies this`cache
      ensures Coherent()
      ensures tableOk || key in old(cache) ==> (found <==> (key, member) in rows)
      ensures !tableOk && key !in old(cache) ==> !found
      ensures cache == if key in old(cache) || !tableOk || MembersOf(rows, key) == [] then old(cache)
                       else old(cache)[key := set m | m in MembersOf(rows, key)]
    {
      MembersAreRows(rows, key, member);
      if key !in cache {
        if !tableOk {
          return false;
        }
        var ids := MembersOf(rows, key);
        if ids != [] {
          cache := cache[key := set m | m in ids];
        }
        found := Find(ids, member);
        return;
      }
      found := member in cache[key];
    }

    /** Drop the cached set of `key`. */
    method Invalidate(key: nat)
      requires Coherent()
      modifies this`cache
      ensures Coherent() && cache == old(cache) - {key}
    {
      cache := cache - {key};
    }

    /** The cache stays coherent if only members of uncached keys change. */
    twostate lemma StaysCoherent()
      requires old(Coherent()) && cache == old(cache)
      requires forall key :: key in cache ==> forall m :: m in MembersOf(rows, key) <==> m in MembersOf(old(rows), key)
      ensures Coherent()
    {
    }

    /** Two INSERTs in one transaction; `committed` says whether it went through. */
    method FriendAdd(uid: nat, friendid: nat, redisOk: (bool, bool), committed: bool) returns (ok: bool)
      requires Coherent()
      modifies this
      ensures Coherent() && ok == (redisOk.0 && redisOk.1 && committed)
      ensures rows == if ok then old(rows) + [(uid, friendid), (friendid, uid)] else old(rows)
      ensures cache == old(cache) - (if redisOk.0 then {uid} else {}) - (if redisOk.0 && redisOk.1 then {friendid} else {})
    {
      if !redisOk.0 {
        return false;
      }
      Invalidate(uid);
      if !redisOk.1 {
        return false;
      }
      Invalidate(friendid);
      if !committed {
        return false;
      }
      label Write:
      rows := rows + [(uid, friendid), (friendid, uid)];
      forall key | key in cache ensures MembersOf(rows, key) == MembersOf(old(rows), key) {
        MembersOfConcat(old(rows), [(uid, friendid), (friendid, uid)], key);
        NoMembersElsewhere([(uid, friendid), (friendid, uid)], key);
      }
      StaysCoherent@Write();
      return true;
    }

    /** Only the row from `uid` to `friendid` goes, not the one back. */
    method FriendDelete(uid: nat, friendid: nat, redisOk: bool, tableOk: bool) returns (ok: bool)
      requires Coherent()
      modifies this
      ensures Coherent() && ok == (redisOk && tableOk)
      ensures rows == if ok then Deleted(old(rows), uid, {friendid}) else old(rows)
      ensures forall row :: row in rows <==> row in old(rows) && !(ok && row == (uid, friendid))
      ensures cache == if redisOk then old(cache) - {uid} else old(cache)
    {
      if !redisOk {
        return false;
      }
      Invalidate(uid);
      if !tableOk {
        return false;
      }
      label Write:
      rows := Deleted(rows, uid, {friendid});
      DeletedRows(old(rows), uid, {friendid});
      forall key | key in cache ensures MembersOf(rows, key) == MembersOf(old(rows), key) {
        MembersAfterDelete(old(rows), uid, {friendid}, key);
      }
      StaysCoherent@Write();
      return true;
    }

    /** `belongs` is the answer of the guard's query. An empty invitation is not a statement. */
    method Invitation(gid: nat, members: seq<nat>, belongs: bool, redisOk: bool, tableOk: bool) returns (ok: bool)
      requires Coherent()
      modifies this
      ensures Coherent() && ok == (belongs && redisOk && tableOk && members != [])
      ensures rows == if ok then old(rows) + seq(|members|, i requires 0 <= i < |members| => (gid, members[i])) else old(rows)
      ensures cache == if belongs && redisOk then old(cache) - {gid} else old(cache)
    {
      if !belongs || !redisOk {
        return false;
      }
      Invalidate(gid);
      var added := seq(|members|, i requires 0 <= i < |members| => (gid, members[i]));
      var sql := BuildInsert(MEMBERS_HEAD, added);
      InsertExecutes(MEMBERS_HEAD, added);
      var parsed := ExecInsert(MEMBERS_HEAD, sql);
      if !tableOk || parsed.None? {
        return false;
      }
      label Write:
      rows := rows + parsed.value;
      forall key | key in cache ensures MembersOf(rows, key) == MembersOf(old(rows), key) {
        MembersOfConcat(old(rows), added, key);
        NoMembersElsewhere(added, key);
      }
      StaysCoherent@Write();
      return true;
    }

    method Removemembers(gid: nat, members: seq<nat>, owner: bool, redisOk: bool, tableOk: bool) returns (ok: bool)
      requires Coherent()
      modifies this
      ensures Coherent() && ok == (owner && redisOk && tableOk)
      ensures rows == if ok then Deleted(old(rows), gid, (set m | m in members)) else old(rows)
      ensures forall row :: row in rows <==> row in old(rows) && !(ok && row.0 == gid && row.1 in members)
      ensures cache == if owner && redisOk then old(cache) - {gid} else old(cache)
    {
      if !owner || !redisOk {
        return false;
      }
      Invalidate(gid);
      if !tableOk {
        return false;
      }
      label Write:
      rows := Deleted(rows, gid, (set m | m in members));
      DeletedRows(old(rows), gid, (set m | m in members));
      forall key | key in cache ensures MembersOf(rows, key) == MembersOf(old(rows), key) {
        MembersAfterDelete(old(rows), gid, (set m | m in members), key);
      }
      StaysCoherent@Write();
      return true;
    }
  }

  lemma {:induction false} NoMembersElsewhere(rows: seq<Row>, key: nat)
    requires forall i :: 0 <= i < |rows| ==> rows[i].0 != key
    ensures MembersOf(rows, key) == []
  {
    if rows != [] {
      NoMembersElsewhere(rows[1..], key);
    }
  }

  /** A check that asked for `uid` while the table answered. */
  predicate AsksFor(checks: seq<(nat, nat, bool)>, uid: nat) {
    exists k :: 0 <= k < |checks| && checks[k].0 == uid && checks[k].2
  }

  function MemberSet(rows: seq<Row>, key: nat): set<nat> {
    set m | m in MembersOf(rows, key)
  }

  /** When a writer of `uid`'s rows may be separated from its invalidation: `checks` are those made
      in between, each with whether the table answered, and `after` are the rows once written. The
      cache is right in the end if and only if the write changes nothing for `uid`, or there was
      nothing to cache for it, or no check asked for it. */
  method WriteAfterChecks(r: Relation, uid: nat, checks: seq<(nat, nat, bool)>, after: seq<Row>)
    requires r.Coherent() && forall key :: key != uid ==> MembersOf(after, key) == MembersOf(r.rows, key)
    modifies r
    ensures r.rows == after
    ensures r.Coherent() <==>
              MemberSet(after, uid) == MemberSet(old(r.rows), uid) || MembersOf(old(r.rows), uid) == [] || !AsksFor(checks, uid)
  {
    r.Invalidate(uid);
    for k := 0 to |checks|
      invariant r.Coherent() && r.rows == old(r.rows)
      invariant uid in r.cache <==> MembersOf(r.rows, uid) != [] && AsksFor(checks[..k], uid)
    {
      var found := r.Check(checks[k].0, checks[k].1, checks[k].2);
      AskedSoFar(checks, k, uid);
    }
    assert checks[..|checks|] == checks;
    r.rows := after;
    if uid in r.cache {
      assert r.cache[uid] == MemberSet(old(r.rows), uid);
    }
  }

  lemma AskedSoFar(checks: seq<(nat, nat, bool)>, k: nat, uid: nat)
    requires k < |checks|
    ensures AsksFor(checks[..k + 1], uid) <==> AsksFor(checks[..k], uid) || (checks[k].0 == uid && checks[k].2)
  {
    assert checks[..k + 1] == checks[..k] + [checks[k]];
    if checks[k].0 == uid && checks[k].2 {
      assert checks[..k + 1][k] == checks[k];
    }
    if AsksFor(checks[..k], uid) {
      var i :| 0 <= i < k && checks[..k][i].0 == uid && checks[..k][i].2;
      assert checks[..k + 1][i] == checks[..k][i];
    }
  }

  /** Why the operations must be atomic: a check that falls between a writer's invalidation and
      its write leaves a stale set in the cache. */
  method RefillRace(r: Relation, uid: nat, friend: nat, known: nat)
    requires r.Coherent() && (uid, known) in r.rows && (uid, friend) !in r.rows
    modifies r
    ensures !r.Coherent()
  {
    ghost var was := r.rows;
    MembersAreRows(was, uid, known);
    MembersAreRows(was, uid, friend);
    forall key ensures MembersOf(was + [(uid, friend)], key) == MembersOf(was, key) + if key == uid then [friend] else [] {
      MembersOfConcat(was, [(uid, friend)], key);
      assert [(uid, friend)][1..] == [];
    }
    assert friend in MembersOf(was + [(uid, friend)], uid);
    var checks := [(uid, friend, true)];
    assert checks[0].0 == uid && AsksFor(checks, uid);
    WriteAfterChecks(r, uid, checks, r.rows + [(uid, friend)]);
    assert friend in MemberSet(r.rows, uid) && friend !in MemberSet(was, uid);
  }
}
