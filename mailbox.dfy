/** The message table: an append-only log of encrypted messages with AUTOINCREMENT ids,
    and the per-handle query the inbox returns. */
module Mailbox {
  import opened Wrappers

  /** A message as posted. The handle is 1 to 32 characters long; the other fields are
      opaque text (base64 ciphertext, nonce and ephemeral key). */
  datatype MessageIn = MessageIn(
    handle: string,
    ciphertext: string,
    nonce: string,
    epk: string,
    nickname: Option<string>)

  predicate ValidMessageIn(msg: MessageIn)
  {
    1 <= |msg.handle| <= 32
  }

  /** A row of the `messages` table: every column is NOT NULL except `nickname`. */
  datatype MessageRow = MessageRow(
    id: nat,
    handle: string,
    ciphertext: string,
    nonce: string,
    epk: string,
    nickname: Option<string>,
    createdAt: string)

  /** A message as the inbox returns it. */
  datatype MessageOut = MessageOut(
    id: nat,
    handle: string,
    ciphertext: string,
    nonce: string,
    epk: string,
    nickname: Option<string>,
    createdAt: string)

  function ToOut(row: MessageRow): MessageOut
  {
    MessageOut(row.id, row.handle, row.ciphertext, row.nonce, row.epk, row.nickname, row.createdAt)
  }

  /** The answer carries every column of the row: two rows give the same message exactly
      when they are the same row. */
  lemma ToOutKeepsEveryColumn(a: MessageRow, b: MessageRow)
    ensures ToOut(a) == ToOut(b) <==> a == b
  {
  }

  /** The table is a rowid table: its rows are kept in increasing id order. */
  predicate IdsIncreasing(rows: seq<MessageRow>)
  {
    forall i, j :: 0 <= i < j < |rows| ==> rows[i].id < rows[j].id
  }

  /** `fetch_messages`: `SELECT * FROM messages WHERE handle = ? ORDER BY id DESC`, each
      row copied into a `MessageOut`. The table is read from its newest row back. */
  function FetchMessages(rows: seq<MessageRow>, handle: string): (out: seq<MessageOut>)
    ensures |out| <= |rows|
    ensures forall k :: 0 <= k < |out| ==> out[k].handle == handle
    decreases |rows|
  {
    if rows == [] then []
    else
      var last := rows[|rows| - 1];
      var rest := FetchMessages(rows[..|rows| - 1], handle);
      if last.handle == handle then [ToOut(last)] + rest else rest
  }

  /** The inbox holds exactly the stored rows for the handle, each copied unchanged. */
  lemma {:induction false} FetchExactly(rows: seq<MessageRow>, handle: string)
    ensures forall i :: 0 <= i < |rows| && rows[i].handle == handle ==>
              ToOut(rows[i]) in FetchMessages(rows, handle)
    ensures forall m :: m in FetchMessages(rows, handle) ==>
              exists i :: 0 <= i < |rows| && rows[i].handle == handle && m == ToOut(rows[i])
    decreases |rows|
  {
    if rows != [] {
      var older := rows[..|rows| - 1];
      FetchExactly(older, handle);
      forall m | m in FetchMessages(rows, handle)
        ensures exists i :: 0 <= i < |rows| && rows[i].handle == handle && m == ToOut(rows[i])
      {
        if m !in FetchMessages(older, handle) {
          assert rows[|rows| - 1].handle == handle && m == ToOut(rows[|rows| - 1]);
        } else {
          var i :| 0 <= i < |older| && older[i].handle == handle && m == ToOut(older[i]);
          assert rows[i] == older[i];
        }
      }
      forall i | 0 <= i < |rows| && rows[i].handle == handle
        ensures ToOut(rows[i]) in FetchMessages(rows, handle)
      {
        if i < |older| {
          assert rows[i] == older[i];
        }
      }
    }
  }

  predicate NewestFirst(out: seq<MessageOut>)
  {
    forall a, b :: 0 <= a < b < |out| ==> out[a].id > out[b].id
  }

  /** The inbox is newest first: ids strictly decrease along it. */
  lemma {:induction false} FetchNewestFirst(rows: seq<MessageRow>, handle: string)
    requires IdsIncreasing(rows)
    ensures NewestFirst(FetchMessages(rows, handle))
    decreases |rows|
  {
    if rows != [] {
      var older := rows[..|rows| - 1];
      var last := rows[|rows| - 1];
      var rest := FetchMessages(older, handle);
      FetchNewestFirst(older, handle);
      if last.handle == handle {
        FetchExactly(older, handle);
        forall k | 0 <= k < |rest| ensures rest[k].id < last.id {
          assert rest[k] in rest;
          var i :| 0 <= i < |older| && older[i].handle == handle && rest[k] == ToOut(older[i]);
          assert older[i] == rows[i];
        }
        var out := FetchMessages(rows, handle);
        assert out == [ToOut(last)] + rest;
        forall a, b | 0 <= a < b < |out| ensures out[a].id > out[b].id {
          assert out[b] == rest[b - 1];
          if a > 0 {
            assert out[a] == rest[a - 1];
          }
        }
      }
    }
  }

  /** A message posted to another handle leaves this handle's inbox as it was. */
  lemma {:induction false} FetchAfterInsertOther(rows: seq<MessageRow>, row: MessageRow, handle: string)
    requires row.handle != handle
    ensures FetchMessages(rows + [row], handle) == FetchMessages(rows, handle)
  {
    assert (rows + [row])[..|rows|] == rows;
  }

  /** A message posted to this handle comes first in its inbox, ahead of the older ones. */
  lemma {:induction false} FetchAfterInsertSame(rows: seq<MessageRow>, row: MessageRow)
    ensures FetchMessages(rows + [row], row.handle) == [ToOut(row)] + FetchMessages(rows, row.handle)
  {
    assert (rows + [row])[..|rows|] == rows;
  }

  /** The table, with SQLite's AUTOINCREMENT counter (the `sqlite_sequence` entry). */
  class MessageLog {
    var rows: seq<MessageRow>
    var lastId: nat

    /** Ids increase along the table and none exceeds the counter. */
    ghost predicate Valid()
      reads this
    {
      IdsIncreasing(rows) && forall i :: 0 <= i < |rows| ==> 1 <= rows[i].id <= lastId
    }

    constructor ()
      ensures Valid() && rows == [] && lastId == 0
    {
      rows := [];
      lastId := 0;
    }

    /** `insert_message`: appends one row with a fresh id and the given fields unchanged;
        earlier rows are untouched (there is no update or delete). */
    method InsertMessage(msg: MessageIn, createdAt: string)
      requires Valid()
      modifies this
      ensures Valid()
      ensures lastId == old(lastId) + 1
      ensures forall i :: 0 <= i < |old(rows)| ==> old(rows)[i].id < lastId
      ensures rows == old(rows) +
                [MessageRow(lastId, msg.handle, msg.ciphertext, msg.nonce, msg.epk, msg.nickname, createdAt)]
    {
      lastId := lastId + 1;
      rows := rows + [MessageRow(lastId, msg.handle, msg.ciphertext, msg.nonce, msg.epk, msg.nickname, createdAt)];
    }
  }
}
