/**
 The task table as the service uses it: statements inside an open transaction, the notify
 trigger, commit and rollback (repository/task.py, services/database.py,
 migrations/0003_task_notify_trigger.sql).
 */
module TaskStore {
  import opened Wrappers

  /** A task's UUID. */
  type Id = nat

  /** The statuses this service writes; workers, which write others, are not part of this model. */
  datatype Status = BeforeRmq | Pending | Canceled

  function Rank(status: Status): nat {
    match status
    case BeforeRmq => 0
    case Pending => 1
    case Canceled => 2
  }

  datatype Content = Content(url: string, verb: string, headers: Option<map<string, string>>, body: Option<string>)

  datatype NewTask = NewTask(content: Content, maxAttempts: int)

  datatype Row = Row(owner: int, content: Content, maxAttempts: int, attemptCount: int, status: Status)

  type Table = map<Id, Row>

  datatype Op = Insert | Update

  datatype Notice = Notice(id: Id, status: Status, op: Op)

  /** What goes to the queue for a task: its id and the attempts header. */
  datatype Message = Message(id: Id, attempts: int)

  /** An open transaction: its own row versions and the notifications it has queued. */
  datatype Tx = Tx(writes: Table, notices: seq<Notice>)

  const EMPTY_TX := Tx(map[], [])

  /** What a statement of the transaction reads. */
  function View(table: Table, tx: Tx): Table {
    table + tx.writes
  }

  // ---- statements ----

  /** The row trigger: an INSERT always notifies, an UPDATE only when the status is distinct. */
  function Trigger(before: Option<Row>, id: Id, after: Row): seq<Notice> {
    match before
    case None => [Notice(id, after.status, Insert)]
    case Some(row) => if row.status != after.status then [Notice(id, after.status, Update)] else []
  }

  function Put(table: Table, tx: Tx, id: Id, row: Row): Tx {
    var before := if id in View(table, tx) then Some(View(table, tx)[id]) else None;
    Tx(tx.writes[id := row], tx.notices + Trigger(before, id, row))
  }

  function NewRow(user: int, task: NewTask, status: Status): Row {
    Row(user, task.content, task.maxAttempts, 0, status)
  }

  function InsertAll(table: Table, tx: Tx, user: int, ids: seq<Id>, tasks: seq<NewTask>): Tx
    requires |ids| == |tasks|
  {
    if ids == [] then tx
    else
      var n := |ids| - 1;
      Put(table, InsertAll(table, tx, user, ids[..n], tasks[..n]), ids[n], NewRow(user, tasks[n], Pending))
  }

  /** UPDATE ... SET status = 'canceled': no guard on the status it overwrites. */
  function CancelUpdate(table: Table, tx: Tx, id: Id): Tx {
    var view := View(table, tx);
    if id in view then Put(table, tx, id, view[id].(status := Canceled)) else tx
  }

  function ContentUpdate(table: Table, tx: Tx, id: Id, content: Content): Tx {
    var view := View(table, tx);
    if id in view then Put(table, tx, id, view[id].(content := content)) else tx
  }

  function ConfirmUpdate(table: Table, tx: Tx, id: Id): Tx {
    var view := View(table, tx);
    if id in view && view[id].status == BeforeRmq then Put(table, tx, id, view[id].(status := Pending)) else tx
  }

  // ---- inserting a batch of fresh ids ----

  ghost predicate Distinct(ids: seq<Id>) {
    forall i, j :: 0 <= i < j < |ids| ==> ids[i] != ids[j]
  }

  function InsertNotices(ids: seq<Id>): seq<Notice> {
    seq(|ids|, i requires 0 <= i < |ids| => Notice(ids[i], Pending, Insert))
  }

  function RowsOf(user: int, ids: seq<Id>, tasks: seq<NewTask>): Table
    requires |ids| == |tasks|
  {
    if ids == [] then map[]
    else
      var n := |ids| - 1;
      RowsOf(user, ids[..n], tasks[..n])[ids[n] := NewRow(user, tasks[n], Pending)]
  }

  function MessagesOf(ids: seq<Id>, tasks: seq<NewTask>): seq<Message>
    requires |ids| == |tasks|
  {
    seq(|ids|, i requires 0 <= i < |ids| => Message(ids[i], tasks[i].maxAttempts))
  }

  lemma {:induction false} RowsOfKeys(user: int, ids: seq<Id>, tasks: seq<NewTask>)
    requires |ids| == |tasks|
    ensures forall id :: id in RowsOf(user, ids, tasks) <==> id in ids
  {
    if ids == [] {
    } else {
      var n := |ids| - 1;
      RowsOfKeys(user, ids[..n], tasks[..n]);
      assert ids == ids[..n] + [ids[n]];
    }
  }

  lemma {:induction false} RowOfTask(user: int, ids: seq<Id>, tasks: seq<NewTask>, i: nat)
    requires |ids| == |tasks| && Distinct(ids) && i < |ids|
    ensures ids[i] in RowsOf(user, ids, tasks) && RowsOf(user, ids, tasks)[ids[i]] == NewRow(user, tasks[i], Pending)
    decreases |ids|
  {
    var n := |ids| - 1;
    if i == n {
    } else {
      RowOfTask(user, ids[..n], tasks[..n], i);
      assert ids[..n][i] == ids[i] && tasks[..n][i] == tasks[i] && ids[i] != ids[n];
    }
  }

  lemma RowsOfAt(user: int, ids: seq<Id>, tasks: seq<NewTask>)
    requires |ids| == |tasks| && Distinct(ids)
    ensures forall id :: id in RowsOf(user, ids, tasks) <==> id in ids
    ensures forall i :: 0 <= i < |ids| ==> RowsOf(user, ids, tasks)[ids[i]] == NewRow(user, tasks[i], Pending)
  {
    RowsOfKeys(user, ids, tasks);
    forall i | 0 <= i < |ids|
      ensures ids[i] in RowsOf(user, ids, tasks) && RowsOf(user, ids, tasks)[ids[i]] == NewRow(user, tasks[i], Pending)
    {
      RowOfTask(user, ids, tasks, i);
    }
  }

  lemma PutFresh(table: Table, tx: Tx, id: Id, row: Row)
    requires id !in table && id !in tx.writes
    ensures Put(table, tx, id, row) == Tx(tx.writes[id := row], tx.notices + [Notice(id, row.status, Insert)])
  {
  }

  /** A batch of fresh ids writes one pending row and queues one notification per task, in order. */
  lemma {:induction false} InsertAllFresh(table: Table, user: int, ids: seq<Id>, tasks: seq<NewTask>)
    requires |ids| == |tasks| && Distinct(ids) && forall id :: id in ids ==> id !in table
    ensures InsertAll(table, EMPTY_TX, user, ids, tasks) == Tx(RowsOf(user, ids, tasks), InsertNotices(ids))
  {
    if ids == [] {
    } else {
      var n := |ids| - 1;
      InsertAllFresh(table, user, ids[..n], tasks[..n]);
      LastIsNew(user, ids, tasks);
      NoticesNext(ids);
      PutFresh(table, Tx(RowsOf(user, ids[..n], tasks[..n]), InsertNotices(ids[..n])), ids[n], NewRow(user, tasks[n], Pending));
    }
  }

  lemma LastIsNew(user: int, ids: seq<Id>, tasks: seq<NewTask>)
    requires |ids| == |tasks| && Distinct(ids) && ids != []
    ensures ids[|ids| - 1] !in RowsOf(user, ids[..|ids| - 1], tasks[..|ids| - 1])
  {
    RowsOfKeys(user, ids[..|ids| - 1], tasks[..|ids| - 1]);
    assert ids[|ids| - 1] !in ids[..|ids| - 1];
  }

  lemma NoticesNext(ids: seq<Id>)
    requires ids != []
    ensures InsertNotices(ids) == InsertNotices(ids[..|ids| - 1]) + [Notice(ids[|ids| - 1], Pending, Insert)]
  {
  }

  lemma {:induction false} InsertedRow(table: Table, tx: Tx, user: int, ids: seq<Id>, tasks: seq<NewTask>, i: nat)
    requires |ids| == |tasks| && Distinct(ids) && i < |ids|
    ensures ids[i] in InsertAll(table, tx, user, ids, tasks).writes
    ensures InsertAll(table, tx, user, ids, tasks).writes[ids[i]] == NewRow(user, tasks[i], Pending)
    decreases |ids|
  {
    var n := |ids| - 1;
    if i == n {
    } else {
      InsertedRow(table, tx, user, ids[..n], tasks[..n], i);
      assert ids[..n][i] == ids[i] && tasks[..n][i] == tasks[i] && ids[i] != ids[n];
    }
  }

  lemma InsertedRows(table: Table, tx: Tx, user: int, ids: seq<Id>, tasks: seq<NewTask>)
    requires |ids| == |tasks| && Distinct(ids)
    ensures forall i :: 0 <= i < |ids| ==>
              && ids[i] in InsertAll(table, tx, user, ids, tasks).writes
              && var row := InsertAll(table, tx, user, ids, tasks).writes[ids[i]];
              && row.owner == user && row.content == tasks[i].content && row.maxAttempts == tasks[i].maxAttempts
              && row.attemptCount == 0 && row.status == Pending
  {
    forall i | 0 <= i < |ids|
      ensures ids[i] in InsertAll(table, tx, user, ids, tasks).writes
           && InsertAll(table, tx, user, ids, tasks).writes[ids[i]] == NewRow(user, tasks[i], Pending)
    {
      InsertedRow(table, tx, user, ids, tasks, i);
    }
  }

  /** The transaction of the first `i + 1` tasks, from that of the first `i`. */
  lemma InsertNext(table: Table, tx: Tx, user: int, ids: seq<Id>, tasks: seq<NewTask>, i: nat)
    requires |ids| == |tasks| && i < |ids|
    ensures InsertAll(table, tx, user, ids[..i + 1], tasks[..i + 1])
         == Put(table, InsertAll(table, tx, user, ids[..i], tasks[..i]), ids[i], NewRow(user, tasks[i], Pending))
    ensures MessagesOf(ids[..i + 1], tasks[..i + 1]) == MessagesOf(ids[..i], tasks[..i]) + [Message(ids[i], tasks[i].maxAttempts)]
  {
    assert ids[..i + 1][..i] == ids[..i] && tasks[..i + 1][..i] == tasks[..i];
  }

  // ---- the database session of one request ----

  class Database {
    var table: Table
    var tx: Tx
    var delivered: seq<Notice>

    constructor ()
      ensures table == map[] && tx == EMPTY_TX && delivered == []
    {
      table, tx, delivered := map[], EMPTY_TX, [];
    }

    method Write(id: Id, row: Row)
      modifies this`tx
      ensures tx == Put(table, old(tx), id, row)
    {
      var before := None;
      if id in View(table, tx) {
        before := Some(View(table, tx)[id]);
      }
      tx := Tx(tx.writes[id := row], tx.notices + Trigger(before, id, row));
    }

    method Commit()
      modifies this
      ensures table == View(old(table), old(tx)) && tx == EMPTY_TX
      ensures forall id :: id in table <==> id in old(table) || id in old(tx).writes
      ensures forall id :: id in table ==>
                table[id] == if id in old(tx).writes then old(tx).writes[id] else old(table)[id]
      ensures delivered == old(delivered) + old(tx).notices
    {
      table, delivered, tx := View(table, tx), delivered + tx.notices, EMPTY_TX;
    }

    method Rollback()
      modifies this`tx
      ensures tx == EMPTY_TX
    {
      tx := EMPTY_TX;
    }

    method CreateTask(id: Id, user: int, task: NewTask, status: Status) returns (created: Message)
      modifies this`tx
      ensures tx == Put(table, old(tx), id, NewRow(user, task, status))
      ensures tx.writes - {id} == old(tx).writes - {id} && id in tx.writes
      ensures var row := tx.writes[id];
              && row.owner == user && row.content == task.content && row.maxAttempts == task.maxAttempts
              && row.attemptCount == 0 && row.status == status
      ensures created == Message(id, task.maxAttempts)
    {
      Write(id, NewRow(user, task, status));
      created := Message(id, task.maxAttempts);
    }

    /** One INSERT for the whole batch, its VALUES list built task by task. */
    method CreateTasksBatch(ids: seq<Id>, user: int, tasks: seq<NewTask>) returns (created: seq<Message>)
      requires |ids| == |tasks|
      modifies this`tx
      ensures tx == InsertAll(table, old(tx), user, ids, tasks)
      ensures Distinct(ids) ==> forall i :: 0 <= i < |ids| ==>
                && ids[i] in tx.writes
                && var row := tx.writes[ids[i]];
                && row.owner == user && row.content == tasks[i].content && row.maxAttempts == tasks[i].maxAttempts
                && row.attemptCount == 0 && row.status == Pending
      ensures created == MessagesOf(ids, tasks)
    {
      created := [];
      for i := 0 to |tasks|
        invariant tx == InsertAll(table, old(tx), user, ids[..i], tasks[..i])
        invariant created == MessagesOf(ids[..i], tasks[..i])
      {
        InsertNext(table, old(tx), user, ids, tasks, i);
        Write(ids[i], NewRow(user, tasks[i], Pending));
        created := created + [Message(ids[i], tasks[i].maxAttempts)];
      }
      assert ids[..|tasks|] == ids && tasks[..|tasks|] == tasks;
      if Distinct(ids) { InsertedRows(table, old(tx), user, ids, tasks); }
    }

    /** SELECT, then UPDATE only if the status read was pending, then SELECT again. */
    method CancelTask(id: Id) returns (result: Option<(Row, int, Status)>)
      modifies this`tx
      ensures var view := View(table, old(tx));
              if id !in view then result.None? && tx == old(tx)
              else
                && tx == (if view[id].status == Pending
                          then Tx(old(tx).writes[id := view[id].(status := Canceled)],
                                  old(tx).notices + [Notice(id, Canceled, Update)])
                          else old(tx))
                && result == Some((View(table, tx)[id], view[id].owner, view[id].status))
    {
      var view := View(table, tx);
      if id !in view {
        return None;
      }
      if view[id].status == Pending {
        Write(id, view[id].(status := Canceled));
      }
      result := Some((View(table, tx)[id], view[id].owner, view[id].status));
    }

    /** SELECT, then UPDATE whatever the status read. */
    method UpdateTask(id: Id, content: Content) returns (result: Option<(Row, int, Status)>)
      modifies this`tx
      ensures var view := View(table, old(tx));
              if id !in view then result.None? && tx == old(tx)
              else
                && tx == Tx(old(tx).writes[id := view[id].(content := content)], old(tx).notices)
                && result == Some((View(table, tx)[id], view[id].owner, view[id].status))
    {
      var view := View(table, tx);
      if id !in view {
        return None;
      }
      Write(id, view[id].(content := content));
      result := Some((View(table, tx)[id], view[id].owner, view[id].status));
    }

    /** Guarded by the status, and committed at once. */
    method ConfirmRmqTask(id: Id)
      modifies this
      ensures var view := View(old(table), old(tx));
              if id in view && view[id].status == BeforeRmq then
                && table == view[id := view[id].(status := Pending)]
                && delivered == old(delivered) + old(tx).notices + [Notice(id, Pending, Update)]
              else
                table == view && delivered == old(delivered) + old(tx).notices
      ensures tx == EMPTY_TX
    {
      var view := View(table, tx);
      if id in view && view[id].status == BeforeRmq {
        Write(id, view[id].(status := Pending));
      }
      Commit();
    }
  }
}
