/** The message database shared by all connection servers: the statements of comit/modle, each
    atomic, with the log of those that took effect. */
module Stores {
  import opened SqlRows
  import OneTable
  import GroupTables
  import Notifies

  const USERS_HEAD := "INSERT INTO group_user_messages (rek,receiver) VALUES "

  /** The ids an `in (?)` condition lists. */
  function Keys(reks: seq<nat>): set<nat> {
    set r | r in reks
  }

  class Store {
    var ones: OneTable.Table
    var groups: GroupTables.Tables
    var notes: Notifies.State
    var nextId: nat
    ghost var oneLog: seq<OneTable.Step>
    ghost var groupLog: seq<GroupTables.Step>
    ghost var noteLog: seq<Notifies.Step>

    /** The tables are what the logged statements make of empty tables. */
    ghost predicate Valid()
      reads this
    {
      && ones == OneTable.Replay(oneLog)
      && groups == GroupTables.Replay(groupLog) && GroupTables.AllEnabled(groupLog)
      && notes == Notifies.Replay(noteLog) && Notifies.AllEnabled(noteLog)
      && forall id :: id in notes.created ==> id < nextId
    }

    /** Statements have been added, none has been taken back. */
    twostate predicate Grown()
      reads this
    {
      old(Valid()) && Valid() && old(oneLog) <= oneLog && old(groupLog) <= groupLog
    }

    constructor ()
      ensures Valid() && oneLog == [] && groupLog == [] && noteLog == []
    {
      ones, groups, notes, nextId := map[], GroupTables.Tables(map[], [], {}), Notifies.START, 1;
      oneLog, groupLog, noteLog := [], [], [];
    }

    // ---------- one-to-one messages ----------

    /** INSERT: refused on a taken primary key, or when the database fails. */
    method AddOnemessage(one: OneTable.Onemessage, dbOk: bool) returns (ok: bool)
      requires Valid()
      modifies this`ones, this`oneLog
      ensures Valid() && ok == (dbOk && one.rek !in old(ones))
      ensures ok ==> ones == old(ones)[one.rek := one] && oneLog == old(oneLog) + [OneTable.Insert(one)]
      ensures !ok ==> ones == old(ones) && oneLog == old(oneLog)
    {
      ok := dbOk && one.rek !in ones;
      if ok {
        ones := ones[one.rek := one];
        oneLog := oneLog + [OneTable.Insert(one)];
      }
    }

    /** DELETE of the rows with one of these ids and this receiver. */
    method DeleteOnemessageMany(reks: seq<nat>, receiver: nat, dbOk: bool) returns (ok: bool)
      requires Valid()
      modifies this`ones, this`oneLog
      ensures Valid() && ok == dbOk
      ensures oneLog == if ok then old(oneLog) + [OneTable.Delete(Keys(reks), receiver)] else old(oneLog)
      ensures ok ==> forall k :: k in ones <==> k in old(ones) && !(k in reks && old(ones)[k].receiver == receiver)
      ensures forall k :: k in ones ==> k in old(ones) && ones[k] == old(ones)[k]
      ensures !ok ==> ones == old(ones)
    {
      ok := dbOk;
      if ok {
        var s := OneTable.Delete(Keys(reks), receiver);
        ones := OneTable.Apply(ones, s);
        oneLog := oneLog + [s];
      }
    }

    // ---------- group messages ----------

    method CreateGroupMessage(m: GroupTables.Message, dbOk: bool) returns (ok: bool)
      requires Valid()
      modifies this`groups, this`groupLog
      ensures Valid() && ok == (dbOk && m.rek !in old(groups.messages))
      ensures ok ==> groupLog == old(groupLog) + [GroupTables.CreateMessage(m)] && m.rek in groups.open
      ensures ok ==> groups.messages == old(groups.messages)[m.rek := m] && groups.users == old(groups.users)
      ensures !ok ==> groups == old(groups) && groupLog == old(groupLog)
    {
      ok := dbOk && m.rek !in groups.messages;
      if ok {
        groups := GroupTables.Apply(groups, GroupTables.CreateMessage(m));
        groupLog := groupLog + [GroupTables.CreateMessage(m)];
      }
    }

    /** One INSERT of all pairs, as text; a text without rows is no statement and fails. */
    method CreateGroupUserMessage(rek: nat, rows: seq<Row>, dbOk: bool) returns (ok: bool)
      requires Valid() && GroupTables.Enabled(groups, GroupTables.CreateUsers(rek, rows))
      modifies this`groups, this`groupLog
      ensures Valid() && ok == (dbOk && rows != [])
      ensures groupLog == if ok then old(groupLog) + [GroupTables.CreateUsers(rek, rows)] else old(groupLog)
      ensures groups.messages == old(groups.messages)
      ensures groups.users == if ok then old(groups.users) + rows else old(groups.users)
    {
      var sql := BuildInsert(USERS_HEAD, rows);
      InsertExecutes(USERS_HEAD, rows);
      var parsed := ExecInsert(USERS_HEAD, sql);
      ok := dbOk && parsed.Some?;
      if ok {
        groups := GroupTables.Apply(groups, GroupTables.CreateUsers(rek, parsed.value));
        groupLog := groupLog + [GroupTables.CreateUsers(rek, rows)];
      }
    }

    method DeleteGroupUserMessageMany(reks: seq<nat>, receiver: nat, dbOk: bool) returns (ok: bool)
      requires Valid()
      modifies this`groups, this`groupLog
      ensures Valid() && ok == dbOk
      ensures groupLog == if ok then old(groupLog) + [GroupTables.DeleteUsers(Keys(reks), receiver)] else old(groupLog)
      ensures ok ==> forall row :: row in groups.users <==> row in old(groups.users) && !(row.0 in reks && row.1 == receiver)
      ensures groups.messages == old(groups.messages) && (!ok ==> groups == old(groups))
    {
      ok := dbOk;
      if ok {
        var s := GroupTables.DeleteUsers(Keys(reks), receiver);
        GroupTables.WithoutIsFilter(groups.users, Keys(reks), receiver);
        groups := GroupTables.Apply(groups, s);
        groupLog := groupLog + [s];
      }
    }

    // ---------- notifications ----------

    method CreateNotifie(uid: nat, kind: nat, body: string, dbOk: bool) returns (ok: bool)
      requires Valid()
      modifies this`notes, this`noteLog, this`nextId
      ensures Valid() && ok == dbOk
      ensures noteLog == if ok then old(noteLog) + [Notifies.Create(Notifies.Notifie(old(nextId), uid, kind, body))] else old(noteLog)
      ensures notes.table == if ok then old(notes.table)[old(nextId) := Notifies.Notifie(old(nextId), uid, kind, body)] else old(notes.table)
      ensures !ok ==> notes == old(notes)
    {
      ok := dbOk;
      if ok {
        var e := Notifies.Create(Notifies.Notifie(nextId, uid, kind, body));
        notes := Notifies.Apply(notes, e);
        noteLog := noteLog + [e];
        nextId := nextId + 1;
      }
    }

    /** Record that a list read earlier was handed to its user's connection. */
    method HandOver(uid: nat, batch: set<Notifies.Notifie>)
      requires Valid() && Notifies.Enabled(notes, Notifies.Write(uid, batch))
      modifies this`notes, this`noteLog
      ensures Valid() && noteLog == old(noteLog) + [Notifies.Write(uid, batch)]
      ensures batch <= notes.handed && notes.created == old(notes.created) && notes.table == old(notes.table)
    {
      notes := Notifies.Apply(notes, Notifies.Write(uid, batch));
      noteLog := noteLog + [Notifies.Write(uid, batch)];
    }

    method DeleteNotifieList(ids: set<nat>, dbOk: bool) returns (ok: bool)
      requires Valid() && Notifies.Enabled(notes, Notifies.Delete(ids))
      modifies this`notes, this`noteLog
      ensures Valid() && ok == dbOk
      ensures noteLog == if ok then old(noteLog) + [Notifies.Delete(ids)] else old(noteLog)
      ensures forall id :: id in notes.table <==> id in old(notes.table) && !(ok && id in ids)
      ensures forall id :: id in notes.table ==> id in old(notes.table) && notes.table[id] == old(notes.table)[id]
    {
      ok := dbOk;
      if ok {
        notes := Notifies.Apply(notes, Notifies.Delete(ids));
        noteLog := noteLog + [Notifies.Delete(ids)];
      }
    }
  }
}
