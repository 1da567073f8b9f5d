/**
 The task operations of one request at a time, each inside its own database session
 (domain/tasks.py, services/database.py): commit on normal exit, rollback on an exception.
 */
module TaskService {
  import opened Wrappers
  import opened TaskStore

  datatype Error = NoTasks | TaskNotFound | AccessDenied | InvalidTaskStatus | PublishFailed

  datatype Result<T> = Ok(value: T) | Err(error: Error)

  /** How a publish ends: accepted, failed, or accepted although the caller sees a failure. */
  datatype PublishOutcome = Accepted | Lost | AcceptedButFailed

  class RabbitMq {
    var sent: seq<Message>

    constructor ()
      ensures sent == []
    {
      sent := [];
    }

    method PublishTask(message: Message, outcome: PublishOutcome) returns (ok: bool)
      modifies this
      ensures sent == old(sent) + (if outcome.Lost? then [] else [message])
      ensures ok <==> outcome.Accepted?
    {
      if !outcome.Lost? {
        sent := sent + [message];
      }
      ok := outcome.Accepted?;
    }
  }

  /** The tail of `get_db`. */
  method CloseSession(db: Database, normalExit: bool)
    modifies db
    ensures db.tx == EMPTY_TX
    ensures normalExit ==> db.table == View(old(db.table), old(db.tx)) && db.delivered == old(db.delivered) + old(db.tx).notices
    ensures !normalExit ==> db.table == old(db.table) && db.delivered == old(db.delivered)
  {
    if normalExit {
      db.Commit();
    } else {
      db.Rollback();
    }
  }

  // ---- create ----

  /**
   Commit, publish, confirm. A failed publish leaves the row behind as BEFORE RMQ, whether or
   not the message got through.
   */
  method CreateRequestTask(db: Database, rabbit: RabbitMq, id: Id, user: int, task: NewTask, outcome: PublishOutcome)
    returns (result: Result<Message>)
    requires db.tx == EMPTY_TX && id !in db.table
    modifies db, rabbit
    ensures db.tx == EMPTY_TX
    ensures result == if outcome.Accepted? then Ok(Message(id, task.maxAttempts)) else Err(PublishFailed)
    ensures id in db.table && db.table - {id} == old(db.table)
    ensures var row := db.table[id];
            && row.owner == user && row.content == task.content && row.maxAttempts == task.maxAttempts
            && row.attemptCount == 0 && row.status == if outcome.Accepted? then Pending else BeforeRmq
    ensures db.delivered == old(db.delivered) + [Notice(id, BeforeRmq, Insert)]
                          + (if outcome.Accepted? then [Notice(id, Pending, Update)] else [])
    ensures rabbit.sent == old(rabbit.sent) + (if outcome.Lost? then [] else [Message(id, task.maxAttempts)])
  {
    var created := db.CreateTask(id, user, task, BeforeRmq);
    db.Commit();
    var ok := rabbit.PublishTask(created, outcome);
    if !ok {
      CloseSession(db, false);
      return Err(PublishFailed);
    }
    db.ConfirmRmqTask(id);
    db.Commit();
    CloseSession(db, true);
    result := Ok(created);
  }

  /** The first publish that fails, or the number of tasks. */
  function FirstFailure(outcomes: seq<PublishOutcome>): (k: nat)
    ensures k <= |outcomes|
    ensures forall i :: 0 <= i < k ==> outcomes[i].Accepted?
    ensures k < |outcomes| ==> !outcomes[k].Accepted?
  {
    if outcomes == [] || !outcomes[0].Accepted? then 0 else 1 + FirstFailure(outcomes[1..])
  }

  /** How many messages reach the broker: all before the first failure, and that one too unless it was lost. */
  function GotThrough(outcomes: seq<PublishOutcome>): (n: nat)
    ensures n <= |outcomes|
  {
    var k := FirstFailure(outcomes);
    if k == |outcomes| || outcomes[k].Lost? then k else k + 1
  }

  /** The publish loop; the exception of a failed publish ends it. */
  method PublishAll(rabbit: RabbitMq, created: seq<Message>, outcomes: seq<PublishOutcome>) returns (ok: bool)
    requires |created| == |outcomes|
    modifies rabbit
    ensures ok <==> FirstFailure(outcomes) == |outcomes|
    ensures rabbit.sent == old(rabbit.sent) + created[..GotThrough(outcomes)]
  {
    for i := 0 to |created|
      invariant i <= FirstFailure(outcomes)
      invariant rabbit.sent == old(rabbit.sent) + created[..i]
    {
      ok := rabbit.PublishTask(created[i], outcomes[i]);
      assert created[..i + 1] == created[..i] + [created[i]];
      if !ok {
        return;
      }
    }
    ok := true;
  }

  /** One pending row per task, with no attempts made, and nothing else changed. */
  ghost predicate RowsAdded(before: Table, after: Table, user: int, ids: seq<Id>, tasks: seq<NewTask>)
    requires |ids| == |tasks|
  {
    && (forall id :: id in after <==> id in before || id in ids)
    && (forall id :: id in before ==> id in after && after[id] == before[id])
    && (forall i :: 0 <= i < |ids| ==>
          && ids[i] in after
          && var row := after[ids[i]];
          && row.owner == user && row.content == tasks[i].content && row.maxAttempts == tasks[i].maxAttempts
          && row.attemptCount == 0 && row.status == Pending)
  }

  lemma AddingRows(table: Table, user: int, ids: seq<Id>, tasks: seq<NewTask>)
    requires |ids| == |tasks| && Distinct(ids) && forall id :: id in ids ==> id !in table
    ensures RowsAdded(table, table + RowsOf(user, ids, tasks), user, ids, tasks)
  {
    RowsOfAt(user, ids, tasks);
  }

  /** The publishes before `k` were accepted and that one failed. */
  predicate FailsFirst(outcomes: seq<PublishOutcome>, k: nat) {
    k < |outcomes| && !outcomes[k].Accepted? && forall j :: 0 <= j < k ==> outcomes[j].Accepted?
  }

  /** The messages of all tasks before the first failed publish, and of that one unless it was lost. */
  ghost predicate SentUpToFailure(before: seq<Message>, after: seq<Message>, ids: seq<Id>, tasks: seq<NewTask>,
                                  outcomes: seq<PublishOutcome>)
    requires |ids| == |tasks| == |outcomes|
  {
    if tasks == [] then after == before
    else exists k: nat ::
           FailsFirst(outcomes, k) && SentPrefix(before, after, ids, tasks, if outcomes[k].Lost? then k else k + 1)
  }

  /** The messages of the first `n` tasks, in order. */
  ghost predicate SentPrefix(before: seq<Message>, after: seq<Message>, ids: seq<Id>, tasks: seq<NewTask>, n: nat)
    requires n <= |ids| == |tasks|
  {
    && |after| == |before| + n && before <= after
    && forall i :: 0 <= i < n ==> after[|before| + i] == Message(ids[i], tasks[i].maxAttempts)
  }

  lemma SendingUpToFailure(sent: seq<Message>, ids: seq<Id>, tasks: seq<NewTask>, outcomes: seq<PublishOutcome>)
    requires |ids| == |tasks| == |outcomes|
    ensures FirstFailure(outcomes) < |outcomes| || tasks == [] ==>
              SentUpToFailure(sent, sent + MessagesOf(ids, tasks)[..GotThrough(outcomes)], ids, tasks, outcomes)
    ensures FirstFailure(outcomes) == |outcomes| <==> forall i :: 0 <= i < |outcomes| ==> outcomes[i].Accepted?
  {
    var k := FirstFailure(outcomes);
    if k < |outcomes| {
      assert FailsFirst(outcomes, k);
      var n := GotThrough(outcomes);
      assert SentPrefix(sent, sent + MessagesOf(ids, tasks)[..n], ids, tasks, n);
    }
  }

  /**
   Publish all, then commit. A failed publish takes every row back, but not the messages
   already accepted.
   */
  method CreateRequestTasksBatch(db: Database, rabbit: RabbitMq, ids: seq<Id>, user: int, tasks: seq<NewTask>,
                                 outcomes: seq<PublishOutcome>)
    returns (result: Result<seq<Message>>)
    requires db.tx == EMPTY_TX && |ids| == |tasks| == |outcomes|
    requires Distinct(ids) && forall id :: id in ids ==> id !in db.table
    modifies db, rabbit
    ensures db.tx == EMPTY_TX
    // all published: every row, message and notification
    ensures result.Ok? <==> tasks != [] && forall i :: 0 <= i < |outcomes| ==> outcomes[i].Accepted?
    ensures result.Ok? ==>
              && |result.value| == |ids|
              && (forall i :: 0 <= i < |ids| ==> result.value[i] == Message(ids[i], tasks[i].maxAttempts))
              && rabbit.sent == old(rabbit.sent) + result.value
              && RowsAdded(old(db.table), db.table, user, ids, tasks)
              && db.delivered == old(db.delivered) + seq(|ids|, i requires 0 <= i < |ids| => Notice(ids[i], Pending, Insert))
    // else no row and no notification, but the messages up to the first failure
    ensures result.Err? ==> db.table == old(db.table) && db.delivered == old(db.delivered)
    ensures result.Err? ==> result == Err(if tasks == [] then NoTasks else PublishFailed)
    ensures result.Err? ==> SentUpToFailure(old(rabbit.sent), rabbit.sent, ids, tasks, outcomes)
  {
    if |tasks| == 0 {
      CloseSession(db, false);
      return Err(NoTasks);
    }
    var created := db.CreateTasksBatch(ids, user, tasks);
    InsertAllFresh(db.table, user, ids, tasks);
    SendingUpToFailure(rabbit.sent, ids, tasks, outcomes);
    var ok := PublishAll(rabbit, created, outcomes);
    if !ok {
      CloseSession(db, false);
      return Err(PublishFailed);
    }
    AddingRows(db.table, user, ids, tasks);
    CloseSession(db, true);
    result := Ok(created);
  }

  // ---- cancel and update ----

  /**
   Write first, check afterwards, and let the session roll back: serially the same as checking first
   what the endpoints promise (api/v1/requests.py:143-149, 191-198).
   */
  method CancelRequestTask(db: Database, id: Id, user: int) returns (result: Result<Row>)
    requires db.tx == EMPTY_TX
    modifies db
    ensures db.tx == EMPTY_TX
    ensures id !in old(db.table) ==> result == Err(TaskNotFound)
    ensures id in old(db.table) ==>
              var row := old(db.table)[id];
              && (row.owner != user ==> result == Err(AccessDenied))
              && (row.owner == user && row.status != Pending ==> result == Err(InvalidTaskStatus))
              && (row.owner == user && row.status == Pending ==>
                    && result == Ok(row.(status := Canceled))
                    && db.table == old(db.table)[id := row.(status := Canceled)]
                    && db.delivered == old(db.delivered) + [Notice(id, Canceled, Update)])
    ensures result.Err? ==> db.table == old(db.table) && db.delivered == old(db.delivered)
  {
    var found := db.CancelTask(id);
    if found.None? {
      result := Err(TaskNotFound);
    } else {
      var (task, owner, status) := found.value;
      if owner != user {
        result := Err(AccessDenied);
      } else if status != Pending {
        result := Err(InvalidTaskStatus);
      } else {
        result := Ok(task);
      }
    }
    CloseSession(db, result.Ok?);
  }

  method UpdateRequestTask(db: Database, id: Id, user: int, content: Content) returns (result: Result<Row>)
    requires db.tx == EMPTY_TX
    modifies db
    ensures db.tx == EMPTY_TX
    ensures db.delivered == old(db.delivered)
    ensures id !in old(db.table) ==> result == Err(TaskNotFound)
    ensures id in old(db.table) ==>
              var row := old(db.table)[id];
              && (row.owner != user ==> result == Err(AccessDenied))
              && (row.owner == user && row.status != Pending ==> result == Err(InvalidTaskStatus))
              && (row.owner == user && row.status == Pending ==>
                    && result == Ok(row.(content := content))
                    && db.table == old(db.table)[id := row.(content := content)])
    ensures result.Err? ==> db.table == old(db.table)
  {
    var found := db.UpdateTask(id, content);
    if found.None? {
      result := Err(TaskNotFound);
    } else {
      var (task, owner, status) := found.value;
      if owner != user {
        result := Err(AccessDenied);
      } else if status != Pending {
        result := Err(InvalidTaskStatus);
      } else {
        result := Ok(task);
      }
    }
    CloseSession(db, result.Ok?);
  }
}
