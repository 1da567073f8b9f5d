/** Every step of every request keeps the protocol invariant. */
module TaskInvariant {
  import opened Wrappers
  import opened TaskStore
  import opened TaskProtocol

  // ---- messages ----

  lemma SentAppend(sent: seq<Message>, m: Message, id: Id)
    ensures Sent(sent + [m], id) == Sent(sent, id) + if m.id == id then 1 else 0
  {
    assert (sent + [m])[..|sent|] == sent;
  }

  lemma {:induction false} SentNone(sent: seq<Message>, id: Id)
    requires forall i :: 0 <= i < |sent| ==> sent[i].id != id
    ensures Sent(sent, id) == 0
  {
    if sent == [] {
    } else {
      SentNone(sent[..|sent| - 1], id);
    }
  }

  // ---- notifications ----

  lemma ReplayAppend(notices: seq<Notice>, n: Notice)
    ensures Replay(notices + [n]) == Replay(notices)[n.id := n.status]
  {
    assert (notices + [n])[..|notices|] == notices;
  }

  /** Everything heard of a task is at most the last thing heard of it. */
  lemma {:induction false} HeardAtMostLast(notices: seq<Notice>, i: nat)
    requires i < |notices| && Rising(notices)
    ensures notices[i].id in Replay(notices) && Rank(notices[i].status) <= Rank(Replay(notices)[notices[i].id])
    decreases |notices|
  {
    var n := |notices| - 1;
    if i < n {
      HeardAtMostLast(notices[..n], i);
    }
  }

  lemma RisingAppend(notices: seq<Notice>, n: Notice)
    requires Rising(notices)
    requires n.id in Replay(notices) ==> Rank(Replay(notices)[n.id]) < Rank(n.status)
    ensures Rising(notices + [n])
  {
    forall i | 0 <= i < |notices| && notices[i].id == n.id
      ensures Rank(notices[i].status) < Rank(n.status)
    {
      HeardAtMostLast(notices, i);
    }
  }

  /** Committing one written row together with what the trigger queued for it. */
  lemma CommitOneRow(table: Table, delivered: seq<Notice>, id: Id, row: Row)
    requires Replay(delivered) == Statuses(table) && Rising(delivered)
    requires id in table ==> Rank(table[id].status) <= Rank(row.status)
    ensures var notices := Trigger(if id in table then Some(table[id]) else None, id, row);
            && Replay(delivered + notices) == Statuses(table[id := row])
            && Rising(delivered + notices)
  {
    var notices := Trigger(if id in table then Some(table[id]) else None, id, row);
    assert id in Statuses(table) <==> id in table;
    if notices == [] {
      assert delivered + notices == delivered;
      assert Statuses(table[id := row]) == Statuses(table);
    } else {
      ReplayAppend(delivered, notices[0]);
      RisingAppend(delivered, notices[0]);
      assert Statuses(table[id := row]) == Statuses(table)[id := row.status];
    }
  }

  function BatchNotices(ms: seq<Message>): seq<Notice> {
    seq(|ms|, i requires 0 <= i < |ms| => Notice(ms[i].id, Pending, Insert))
  }

  ghost predicate Among(ms: seq<Message>, id: Id) {
    exists i :: 0 <= i < |ms| && ms[i].id == id
  }

  lemma AmongNext(ms: seq<Message>, id: Id)
    requires ms != []
    ensures Among(ms, id) <==> Among(ms[..|ms| - 1], id) || ms[|ms| - 1].id == id
  {
    var n := |ms| - 1;
    if i :| 0 <= i < n && ms[..n][i].id == id { assert ms[i].id == id; }
    if i :| 0 <= i < n && ms[i].id == id { assert ms[..n][i].id == id; }
  }

  lemma BatchNoticesNext(delivered: seq<Notice>, ms: seq<Message>)
    requires ms != []
    ensures var n := |ms| - 1;
            delivered + BatchNotices(ms) == delivered + BatchNotices(ms[..n]) + [Notice(ms[n].id, Pending, Insert)]
  {
  }

  lemma {:induction false} ReplayBatch(delivered: seq<Notice>, ms: seq<Message>)
    requires forall i, j :: 0 <= i < j < |ms| ==> ms[i].id != ms[j].id
    ensures forall id :: id in Replay(delivered + BatchNotices(ms)) <==>
              id in Replay(delivered) || Among(ms, id)
    ensures forall id :: id in Replay(delivered + BatchNotices(ms)) ==>
              Replay(delivered + BatchNotices(ms))[id] == if Among(ms, id) then Pending else Replay(delivered)[id]
    decreases |ms|
  {
    if ms == [] {
      assert delivered + BatchNotices(ms) == delivered;
    } else {
      var n := |ms| - 1;
      ReplayBatch(delivered, ms[..n]);
      BatchNoticesNext(delivered, ms);
      ReplayAppend(delivered + BatchNotices(ms[..n]), Notice(ms[n].id, Pending, Insert));
      forall id ensures Among(ms, id) <==> Among(ms[..n], id) || ms[n].id == id {
        AmongNext(ms, id);
      }
    }
  }

  lemma {:induction false} RisingBatch(delivered: seq<Notice>, ms: seq<Message>)
    requires Rising(delivered)
    requires forall i, j :: 0 <= i < j < |ms| ==> ms[i].id != ms[j].id
    requires forall i :: 0 <= i < |ms| ==> ms[i].id !in Replay(delivered)
    ensures Rising(delivered + BatchNotices(ms))
    decreases |ms|
  {
    if ms == [] {
      assert delivered + BatchNotices(ms) == delivered;
    } else {
      var n := |ms| - 1;
      RisingBatch(delivered, ms[..n]);
      ReplayBatch(delivered, ms[..n]);
      BatchNoticesNext(delivered, ms);
      RisingAppend(delivered + BatchNotices(ms[..n]), Notice(ms[n].id, Pending, Insert));
    }
  }

  lemma CommitBatchRows(s: State, sid: nat, ms: seq<Message>, next: nat, tx: Tx)
    requires NoticesOk(s) && BatchOk(s, sid, ms, next, tx)
    ensures Replay(s.delivered + tx.notices) == Statuses(View(s.table, tx))
    ensures Rising(s.delivered + tx.notices)
  {
    assert tx.notices == BatchNotices(ms);
    forall i | 0 <= i < |ms| ensures ms[i].id !in Replay(s.delivered) {
      assert ms[i].id !in s.table;
    }
    RisingBatch(s.delivered, ms);
    ReplayBatch(s.delivered, ms);
    var view := View(s.table, tx);
    var heard := Replay(s.delivered + tx.notices);
    forall id ensures id in heard <==> id in Statuses(view) {
      assert id in Replay(s.delivered) <==> id in s.table;
      assert Among(ms, id) <==> id in tx.writes;
    }
    forall id | id in heard ensures heard[id] == Statuses(view)[id] {
      if id in s.table {
        assert id !in tx.writes && !Among(ms, id);
        assert heard[id] == Replay(s.delivered)[id] == Statuses(s.table)[id];
      } else {
        assert Among(ms, id);
        var i :| 0 <= i < |ms| && ms[i].id == id;
        assert tx.writes[ms[i].id].status == Pending;
      }
    }
  }

  // ---- what a step of one request leaves alone ----

  ghost predicate Later(before: Row, after: Row) {
    && before.owner == after.owner && before.maxAttempts == after.maxAttempts
    && before.attemptCount == after.attemptCount
    && Rank(before.status) <= Rank(after.status)
  }

  ghost predicate SameRow(s: State, s': State, id: Id) {
    (id in s.table <==> id in s'.table) && (id in s.table ==> s.table[id] == s'.table[id])
  }

  ghost predicate TableGrows(s: State, s': State) {
    forall id :: id in s.table ==> id in s'.table && Later(s.table[id], s'.table[id])
  }

  ghost predicate BirthsGrow(s: State, s': State, sid: nat) {
    && (forall id :: id in s.births ==> id in s'.births && s'.births[id] == s.births[id])
    && (forall id :: id in s'.births && id !in s.births ==> s'.births[id].sid == sid)
  }

  ghost predicate OthersStay(s: State, s': State, sid: nat) {
    && s'.sessions.Keys == s.sessions.Keys + {sid}
    && (forall o :: o in s.sessions && o != sid ==> s'.sessions[o] == s.sessions[o])
  }

  /** A row changes only by its writer's commit, and only its creator changes a row not past BEFORE RMQ. */
  ghost predicate RowsGuarded(s: State, s': State, sid: nat) {
    forall id :: !SameRow(s, s', id) ==>
      && sid in s.sessions && id in s.sessions[sid].tx.writes
      && ((id in s.births && s.births[id].sid == sid) || (id in s.table && s.table[id].status != BeforeRmq))
  }

  ghost predicate SentGuarded(s: State, s': State, sid: nat) {
    forall id :: Sent(s'.sent, id) != Sent(s.sent, id) ==> id in s.births && s.births[id].sid == sid
  }

  ghost predicate Frame(s: State, s': State, sid: nat) {
    && OthersStay(s, s', sid) && BirthsGrow(s, s', sid) && TableGrows(s, s')
    && RowsGuarded(s, s', sid) && SentGuarded(s, s', sid)
  }

  lemma CreatorKnown(s: State, sid: nat, id: Id)
    requires sid in s.sessions && SessionOk(s, sid) && Creates(s.sessions[sid].pc, id)
    ensures id in s.births && s.births[id].sid == sid
    ensures id in s.table ==> s.table[id].status == BeforeRmq
  {
  }

  lemma SessionFrame(s: State, s': State, sid: nat)
    requires sid in s.sessions && sid in s'.sessions && s'.sessions[sid] == s.sessions[sid] && SessionOk(s, sid)
    requires forall id :: id in s.births ==> id in s'.births && s'.births[id] == s.births[id]
    requires TableGrows(s, s')
    requires forall id :: id in s.sessions[sid].tx.writes || Creates(s.sessions[sid].pc, id) ==> SameRow(s, s', id)
    requires forall id :: Creates(s.sessions[sid].pc, id) ==> Sent(s'.sent, id) == Sent(s.sent, id)
    ensures SessionOk(s', sid)
  {
    var pc, tx := s.sessions[sid].pc, s.sessions[sid].tx;
    if pc.BatchPublishing? {
      forall i | 0 <= i < |pc.ms| ensures SameRow(s, s', pc.ms[i].id) && Sent(s'.sent, pc.ms[i].id) == Sent(s.sent, pc.ms[i].id) {
        assert Creates(pc, pc.ms[i].id);
      }
    } else if pc.CancelWritten? && pc.seen == Pending {
      assert View(s.table, EMPTY_TX) == s.table && View(s'.table, EMPTY_TX) == s'.table;
      assert pc.id in tx.writes;
      assert SameRow(s, s', pc.id);
    } else if pc.UpdateWritten? {
      assert pc.id in tx.writes;
      assert SameRow(s, s', pc.id);
    } else if pc.SingleInserted? || pc.SingleCommitted? || pc.SinglePublished? || pc.SingleConfirmed? {
      assert Creates(pc, pc.m.id);
      assert SameRow(s, s', pc.m.id);
    }
  }

  lemma OtherSessionsKept(s: State, s': State, sid: nat, other: nat)
    requires SessionsOk(s) && Frame(s, s', sid) && other in s.sessions && other != sid
    ensures SessionOk(s', other)
  {
    var session := s.sessions[other];
    forall id | id in session.tx.writes || Creates(session.pc, id)
      ensures SameRow(s, s', id)
    {
      if Creates(session.pc, id) {
        CreatorKnown(s, other, id);
      }
    }
    forall id | Creates(session.pc, id) ensures Sent(s'.sent, id) == Sent(s.sent, id) {
      CreatorKnown(s, other, id);
    }
    SessionFrame(s, s', other);
  }

  lemma OtherBirthsKept(s: State, s': State, sid: nat, id: Id)
    requires Inv(s) && Frame(s, s', sid) && id in s.births && s.births[id].sid != sid
    ensures BirthOk(s', id)
  {
    assert BirthOk(s, id);
    if !SameRow(s, s', id) {
      assert id in s.table && s.table[id].status != BeforeRmq;
    }
  }

  /** What is left to show of a step once its frame is known. */
  ghost predicate StepSound(s: State, s': State, sid: nat) {
    && Frame(s, s', sid)
    && SessionOk(s', sid)
    && (forall id :: id in s'.sessions[sid].tx.writes ==> Unlocked(s, sid, id))
    && (forall id {:trigger BirthOk(s', id)} :: id in s'.births && s'.births[id].sid == sid ==> BirthOk(s', id))
    && (forall id :: id in s'.table ==> id in s'.births)
    && MessagesKnown(s')
    && NoticesOk(s')
  }

  ghost predicate WritesApart(s: State) {
    forall a, b, id :: a in s.sessions && b in s.sessions && a != b && id in s.sessions[a].tx.writes ==>
      id !in s.sessions[b].tx.writes
  }

  lemma WritesStayApart(s: State, s': State, sid: nat)
    requires WritesApart(s) && OthersStay(s, s', sid)
    requires forall id :: id in s'.sessions[sid].tx.writes ==> Unlocked(s, sid, id)
    ensures WritesApart(s')
  {
  }

  lemma SoundStepKeepsInv(s: State, s': State, sid: nat)
    requires Inv(s) && sid in s'.sessions && StepSound(s, s', sid)
    ensures Inv(s')
  {
    forall other | other in s'.sessions ensures SessionOk(s', other) {
      if other != sid { OtherSessionsKept(s, s', sid, other); }
    }
    WritesStayApart(s, s', sid);
    forall id | id in s'.births ensures BirthOk(s', id) {
      if s'.births[id].sid != sid { OtherBirthsKept(s, s', sid, id); }
    }
  }

  // ---- steps that only move the request on ----

  /** A step that changes neither table nor queue nor notifications. */
  lemma MoveSound(s: State, sid: nat, pc: Pc, tx: Tx)
    requires Inv(s)
    requires var s' := Move(s, sid, pc, tx);
             && SessionOk(s', sid)
             && forall id :: id in s.births && s.births[id].sid == sid ==> BirthOk(s', id)
    requires forall id :: id in tx.writes ==> Unlocked(s, sid, id)
    ensures Inv(Move(s, sid, pc, tx))
  {
    SoundStepKeepsInv(s, Move(s, sid, pc, tx), sid);
  }

  /** A request that creates nothing has no births to answer for. */
  lemma NoBirths(s: State, sid: nat, id: Id)
    requires BirthsOk(s) && id in s.births && s.births[id].sid == sid
    ensures sid in s.sessions
    ensures var pc := s.sessions[sid].pc; Creates(pc, id) || pc.Finished? || pc.Aborted?
  {
    assert BirthOk(s, id);
  }

  lemma SelectStep(s: State, ev: Event)
    requires Inv(s) && Enabled(s, ev) && (ev.CancelSelect? || ev.UpdateSelect?)
    ensures Inv(Apply(s, ev))
  {
    forall id | id in s.births ensures s.births[id].sid != ev.sid {
      assert BirthOk(s, id);
    }
    var session := Apply(s, ev).sessions[ev.sid];
    MoveSound(s, ev.sid, session.pc, session.tx);
  }

  lemma CancelWriteStep(s: State, sid: nat)
    requires Inv(s) && Enabled(s, CancelWrite(sid))
    ensures Inv(Apply(s, CancelWrite(sid)))
  {
    var pc := s.sessions[sid].pc;
    assert SessionOk(s, sid);
    forall id | id in s.births ensures s.births[id].sid != sid {
      if s.births[id].sid == sid { NoBirths(s, sid, id); }
    }
    var session := Apply(s, CancelWrite(sid)).sessions[sid];
    MoveSound(s, sid, session.pc, session.tx);
  }

  lemma UpdateWriteStep(s: State, sid: nat)
    requires Inv(s) && Enabled(s, UpdateWrite(sid))
    ensures Inv(Apply(s, UpdateWrite(sid)))
  {
    var pc := s.sessions[sid].pc;
    assert SessionOk(s, sid);
    forall id | id in s.births ensures s.births[id].sid != sid {
      if s.births[id].sid == sid { NoBirths(s, sid, id); }
    }
    assert View(s.table, EMPTY_TX) == s.table;
    var session := Apply(s, UpdateWrite(sid)).sessions[sid];
    MoveSound(s, sid, session.pc, session.tx);
  }

  lemma SingleConfirmStep(s: State, sid: nat)
    requires Inv(s) && Enabled(s, SingleConfirm(sid))
    ensures Inv(Apply(s, SingleConfirm(sid)))
  {
    var m := s.sessions[sid].pc.m;
    assert SessionOk(s, sid);
    assert View(s.table, EMPTY_TX) == s.table;
    var s' := Apply(s, SingleConfirm(sid));
    forall id | id in s.births && s.births[id].sid == sid ensures BirthOk(s', id) {
      NoBirths(s, sid, id);
      assert BirthOk(s, id);
    }
    MoveSound(s, sid, s'.sessions[sid].pc, s'.sessions[sid].tx);
  }

  /** Rolling back a request, wherever it stands. */
  lemma AbortStep(s: State, sid: nat)
    requires Inv(s) && sid in s.sessions && !s.sessions[sid].pc.Finished?
    ensures Inv(Move(s, sid, Aborted, EMPTY_TX))
  {
    var s' := Move(s, sid, Aborted, EMPTY_TX);
    forall id | id in s.births && s.births[id].sid == sid ensures BirthOk(s', id) {
      assert BirthOk(s, id);
    }
    MoveSound(s, sid, Aborted, EMPTY_TX);
  }

  // ---- steps that publish ----

  /** Appending the message of an id the request is creating. */
  lemma SendSound(s: State, sid: nat, m: Message, pc: Pc, tx: Tx)
    requires Inv(s) && sid in s.sessions && Creates(s.sessions[sid].pc, m.id)
    requires m.id in s.births && m.attempts == s.births[m.id].attempts
    requires var s' := Move(Send(s, m), sid, pc, tx);
             && SessionOk(s', sid)
             && forall id :: id in s.births && s.births[id].sid == sid ==> BirthOk(s', id)
    requires tx == s.sessions[sid].tx || tx == EMPTY_TX
    ensures Inv(Move(Send(s, m), sid, pc, tx))
  {
    var s' := Move(Send(s, m), sid, pc, tx);
    CreatorKnown(s, sid, m.id);
    SendFrame(s, sid, m, pc, tx);
    SoundStepKeepsInv(s, s', sid);
  }

  lemma SendFrame(s: State, sid: nat, m: Message, pc: Pc, tx: Tx)
    requires sid in s.sessions && m.id in s.births && s.births[m.id].sid == sid && MessagesKnown(s)
    requires m.attempts == s.births[m.id].attempts
    ensures Frame(s, Move(Send(s, m), sid, pc, tx), sid)
    ensures MessagesKnown(Move(Send(s, m), sid, pc, tx))
  {
    forall id ensures Sent(s.sent + [m], id) == Sent(s.sent, id) + if m.id == id then 1 else 0 {
      SentAppend(s.sent, m, id);
    }
  }

  lemma SinglePublishStep(s: State, sid: nat)
    requires Inv(s) && Enabled(s, SinglePublish(sid))
    ensures Inv(Apply(s, SinglePublish(sid)))
  {
    var m := s.sessions[sid].pc.m;
    assert SessionOk(s, sid);
    var s' := Apply(s, SinglePublish(sid));
    SentAppend(s.sent, m, m.id);
    forall id | id in s.births && s.births[id].sid == sid ensures BirthOk(s', id) {
      NoBirths(s, sid, id);
      assert BirthOk(s, id);
    }
    SendSound(s, sid, m, SinglePublished(m), s.sessions[sid].tx);
  }

  lemma SinglePublishFails(s: State, sid: nat)
    requires Inv(s) && sid in s.sessions && s.sessions[sid].pc.SingleCommitted?
    ensures Inv(Move(Send(s, s.sessions[sid].pc.m), sid, Aborted, EMPTY_TX))
  {
    SinglePublishStep(s, sid);
    AbortStep(Apply(s, SinglePublish(sid)), sid);
    assert Move(Apply(s, SinglePublish(sid)), sid, Aborted, EMPTY_TX)
        == Move(Send(s, s.sessions[sid].pc.m), sid, Aborted, EMPTY_TX);
  }

  lemma BatchPublishSession(s: State, sid: nat)
    requires SessionsOk(s) && Enabled(s, BatchPublish(sid))
    ensures SessionOk(Apply(s, BatchPublish(sid)), sid)
  {
    var pc := s.sessions[sid].pc;
    assert SessionOk(s, sid);
    var s' := Apply(s, BatchPublish(sid));
    forall i | 0 <= i < |pc.ms|
      ensures Sent(s'.sent, pc.ms[i].id) == if i < pc.next + 1 then 1 else 0
    {
      SentAppend(s.sent, pc.ms[pc.next], pc.ms[i].id);
    }
  }

  lemma BatchPublishBirth(s: State, sid: nat, id: Id)
    requires BirthsOk(s) && SessionsOk(s) && Enabled(s, BatchPublish(sid))
    requires id in s.births && s.births[id].sid == sid
    ensures BirthOk(Apply(s, BatchPublish(sid)), id)
  {
    var pc := s.sessions[sid].pc;
    assert BirthOk(s, id) && SessionOk(s, sid);
    var i :| 0 <= i < |pc.ms| && pc.ms[i].id == id;
    SentAppend(s.sent, pc.ms[pc.next], id);
    assert pc.(next := pc.next + 1).ms[i].id == id;
  }

  lemma BatchPublishStep(s: State, sid: nat)
    requires Inv(s) && Enabled(s, BatchPublish(sid))
    ensures Inv(Apply(s, BatchPublish(sid)))
  {
    var pc := s.sessions[sid].pc;
    var m := pc.ms[pc.next];
    var s' := Apply(s, BatchPublish(sid));
    BatchPublishSession(s, sid);
    assert s' == Move(Send(s, m), sid, pc.(next := pc.next + 1), s.sessions[sid].tx);
    BatchMember(s, sid, pc.next);
    forall id | id in s.births && s.births[id].sid == sid ensures BirthOk(s', id) {
      BatchPublishBirth(s, sid, id);
    }
    SendSound(s, sid, m, pc.(next := pc.next + 1), s.sessions[sid].tx);
  }

  lemma BatchMember(s: State, sid: nat, i: nat)
    requires SessionsOk(s) && sid in s.sessions && s.sessions[sid].pc.BatchPublishing? && i < |s.sessions[sid].pc.ms|
    ensures var m := s.sessions[sid].pc.ms[i];
            && Creates(s.sessions[sid].pc, m.id)
            && BornAs(s, sid, true, m)
  {
    assert SessionOk(s, sid);
  }

  lemma BatchPublishFails(s: State, sid: nat)
    requires Inv(s) && Enabled(s, BatchPublish(sid))
    ensures var pc := s.sessions[sid].pc; Inv(Move(Send(s, pc.ms[pc.next]), sid, Aborted, EMPTY_TX))
  {
    var pc := s.sessions[sid].pc;
    BatchPublishStep(s, sid);
    AbortStep(Apply(s, BatchPublish(sid)), sid);
    assert Move(Apply(s, BatchPublish(sid)), sid, Aborted, EMPTY_TX) == Move(Send(s, pc.ms[pc.next]), sid, Aborted, EMPTY_TX);
  }

  lemma FailStep(s: State, sid: nat, accepted: bool)
    requires Inv(s) && Enabled(s, Fail(sid, accepted))
    ensures Inv(Apply(s, Fail(sid, accepted)))
  {
    if !accepted {
      AbortStep(s, sid);
    } else if s.sessions[sid].pc.SingleCommitted? {
      SinglePublishFails(s, sid);
    } else {
      BatchPublishFails(s, sid);
    }
  }

  // ---- steps that commit ----

  /** Committing one row that the request created or that is past BEFORE RMQ. */
  lemma CommitRowStep(s: State, sid: nat, id: Id, pc: Pc)
    requires Inv(s) && sid in s.sessions
    requires var tx := s.sessions[sid].tx;
      && tx.writes.Keys == {id}
      && tx.notices == Trigger(if id in s.table then Some(s.table[id]) else None, id, tx.writes[id])
      && (id in s.table ==> Later(s.table[id], tx.writes[id]))
      && id in s.births
      && (s.births[id].sid == sid || (id in s.table && s.table[id].status != BeforeRmq))
    requires SessionOk(CommitTx(s, sid, pc), sid)
    requires forall b :: b in s.births && s.births[b].sid == sid ==> BirthOk(CommitTx(s, sid, pc), b)
    ensures Inv(CommitTx(s, sid, pc))
  {
    var tx := s.sessions[sid].tx;
    var s' := CommitTx(s, sid, pc);
    assert s'.table == s.table[id := tx.writes[id]];
    CommitOneRow(s.table, s.delivered, id, tx.writes[id]);
    CommitRowFrame(s, sid, id, pc);
    CommitSound(s, sid, pc);
  }

  lemma CommitRowFrame(s: State, sid: nat, id: Id, pc: Pc)
    requires sid in s.sessions
    requires var tx := s.sessions[sid].tx;
      && tx.writes.Keys == {id}
      && (id in s.table ==> Later(s.table[id], tx.writes[id]))
      && ((id in s.births && s.births[id].sid == sid) || (id in s.table && s.table[id].status != BeforeRmq))
    ensures Frame(s, CommitTx(s, sid, pc), sid)
  {
    assert s.sessions[sid].tx.writes.Keys == {id};
    assert CommitTx(s, sid, pc).table == s.table[id := s.sessions[sid].tx.writes[id]];
  }

  lemma SingleCommitStep(s: State, sid: nat)
    requires Inv(s) && Enabled(s, SingleCommit(sid))
    ensures Inv(Apply(s, SingleCommit(sid)))
  {
    var m := s.sessions[sid].pc.m;
    assert SessionOk(s, sid);
    var s' := Apply(s, SingleCommit(sid));
    forall id | id in s.births && s.births[id].sid == sid ensures BirthOk(s', id) {
      NoBirths(s, sid, id);
      assert BirthOk(s, id);
    }
    CommitRowStep(s, sid, m.id, SingleCommitted(m));
  }

  lemma SingleFinishStep(s: State, sid: nat)
    requires Inv(s) && Enabled(s, SingleFinish(sid))
    ensures Inv(Apply(s, SingleFinish(sid)))
  {
    var m := s.sessions[sid].pc.m;
    assert SessionOk(s, sid);
    var s' := Apply(s, SingleFinish(sid));
    forall id | id in s.births && s.births[id].sid == sid ensures BirthOk(s', id) {
      NoBirths(s, sid, id);
      assert BirthOk(s, id);
    }
    CommitRowStep(s, sid, m.id, Finished);
  }

  lemma WriterFinishStep(s: State, sid: nat)
    requires Inv(s) && sid in s.sessions
    requires var pc := s.sessions[sid].pc; (pc.CancelWritten? || pc.UpdateWritten?) && Permitted(pc)
    ensures Inv(CommitTx(s, sid, Finished))
  {
    var pc := s.sessions[sid].pc;
    assert SessionOk(s, sid);
    assert View(s.table, EMPTY_TX) == s.table;
    assert pc.id in s.births;
    forall id | id in s.births ensures s.births[id].sid != sid {
      if s.births[id].sid == sid { NoBirths(s, sid, id); }
    }
    CommitRowStep(s, sid, pc.id, Finished);
  }

  lemma BatchCommitFrame(s: State, sid: nat)
    requires SessionsOk(s) && Enabled(s, BatchCommit(sid))
    ensures Frame(s, Apply(s, BatchCommit(sid)), sid)
    ensures forall id :: id in s.sessions[sid].tx.writes ==> id in s.births
  {
    var pc, tx := s.sessions[sid].pc, s.sessions[sid].tx;
    assert SessionOk(s, sid);
    forall id | id in tx.writes ensures id !in s.table && id in s.births && s.births[id].sid == sid {
      var i :| 0 <= i < |pc.ms| && pc.ms[i].id == id;
      BatchMember(s, sid, i);
    }
  }

  lemma BatchCommitBirth(s: State, sid: nat, id: Id)
    requires BirthsOk(s) && SessionsOk(s) && Enabled(s, BatchCommit(sid))
    requires id in s.births && s.births[id].sid == sid
    ensures BirthOk(Apply(s, BatchCommit(sid)), id)
  {
    var pc, tx := s.sessions[sid].pc, s.sessions[sid].tx;
    assert BirthOk(s, id) && SessionOk(s, sid);
    var i :| 0 <= i < |pc.ms| && pc.ms[i].id == id;
    assert tx.writes[pc.ms[i].id].status == Pending;
  }

  lemma BatchCommitStep(s: State, sid: nat)
    requires Inv(s) && Enabled(s, BatchCommit(sid))
    ensures Inv(Apply(s, BatchCommit(sid)))
  {
    BatchCommitFrame(s, sid);
    BatchCommitNotices(s, sid);
    forall id | id in s.births && s.births[id].sid == sid ensures BirthOk(CommitTx(s, sid, Finished), id) {
      BatchCommitBirth(s, sid, id);
    }
    CommitSound(s, sid, Finished);
  }

  lemma BatchCommitNotices(s: State, sid: nat)
    requires SessionsOk(s) && NoticesOk(s) && Enabled(s, BatchCommit(sid))
    ensures NoticesOk(Apply(s, BatchCommit(sid)))
  {
    var session := s.sessions[sid];
    assert SessionOk(s, sid);
    CommitBatchRows(s, sid, session.pc.ms, session.pc.next, session.tx);
  }

  lemma CommitSound(s: State, sid: nat, pc: Pc)
    requires Inv(s) && sid in s.sessions
    requires Frame(s, CommitTx(s, sid, pc), sid) && NoticesOk(CommitTx(s, sid, pc))
    requires SessionOk(CommitTx(s, sid, pc), sid)
    requires forall id :: id in s.births && s.births[id].sid == sid ==> BirthOk(CommitTx(s, sid, pc), id)
    requires forall id :: id in s.sessions[sid].tx.writes ==> id in s.births
    ensures Inv(CommitTx(s, sid, pc))
  {
    SoundStepKeepsInv(s, CommitTx(s, sid, pc), sid);
  }

  // ---- steps that start a creation ----

  /** A request that has just started touches nothing of the others. */
  lemma StartFrame(s: State, sid: nat, births: map<Id, Birth>, pc: Pc, tx: Tx)
    requires sid !in s.sessions && MessagesKnown(s)
    requires forall id :: id in s.births ==> id in births && births[id] == s.births[id]
    requires forall id :: id in births && id !in s.births ==> births[id].sid == sid
    ensures Frame(s, Move(s.(births := births), sid, pc, tx), sid)
    ensures MessagesKnown(Move(s.(births := births), sid, pc, tx))
  {
  }

  /** A request that starts, with the ids it gives birth to. */
  lemma StartSound(s: State, sid: nat, births: map<Id, Birth>, pc: Pc, tx: Tx)
    requires Inv(s) && sid !in s.sessions
    requires forall id :: id in s.births ==> id in births && births[id] == s.births[id]
    requires forall id :: id in births && id !in s.births ==>
               births[id].sid == sid && BirthOk(Move(s.(births := births), sid, pc, tx), id)
    requires SessionOk(Move(s.(births := births), sid, pc, tx), sid)
    requires forall id :: id in tx.writes ==> id !in s.births
    ensures Inv(Move(s.(births := births), sid, pc, tx))
  {
    var s' := Move(s.(births := births), sid, pc, tx);
    StartFrame(s, sid, births, pc, tx);
    forall id | id in s.births ensures s.births[id].sid != sid {
      assert BirthOk(s, id);
    }
    forall id | id in tx.writes ensures Unlocked(s, sid, id) {
      UnbornUnknown(s, id);
    }
    SoundStepKeepsInv(s, s', sid);
  }

  lemma SingleInsertStep(s: State, ev: Event)
    requires Inv(s) && Enabled(s, ev) && ev.SingleInsert?
    ensures Inv(Apply(s, ev))
  {
    var s' := Apply(s, ev);
    UnbornUnknown(s, ev.id);
    assert View(s.table, EMPTY_TX) == s.table;
    StartSound(s, ev.sid, s'.births, s'.sessions[ev.sid].pc, s'.sessions[ev.sid].tx);
  }

  /** An id never generated occurs nowhere. */
  lemma UnbornUnknown(s: State, id: Id)
    requires Inv(s) && id !in s.births
    ensures id !in s.table && Sent(s.sent, id) == 0
    ensures forall sid :: sid in s.sessions ==> id !in s.sessions[sid].tx.writes
  {
    SentNone(s.sent, id);
    forall sid | sid in s.sessions ensures id !in s.sessions[sid].tx.writes {
      assert SessionOk(s, sid);
      var pc := s.sessions[sid].pc;
      if pc.BatchPublishing? {
        forall i | 0 <= i < |pc.ms| ensures pc.ms[i].id != id {
          BatchMember(s, sid, i);
        }
      }
    }
  }

  lemma {:induction false} BirthsOfKeys(sid: nat, user: int, ids: seq<Id>, tasks: seq<NewTask>)
    requires |ids| == |tasks|
    ensures forall id :: id in BirthsOf(sid, user, ids, tasks) <==> id in ids
  {
    if ids == [] {
    } else {
      var n := |ids| - 1;
      BirthsOfKeys(sid, user, ids[..n], tasks[..n]);
      assert ids == ids[..n] + [ids[n]];
    }
  }

  lemma {:induction false} BirthOfTask(sid: nat, user: int, ids: seq<Id>, tasks: seq<NewTask>, i: nat)
    requires |ids| == |tasks| && Distinct(ids) && i < |ids|
    ensures ids[i] in BirthsOf(sid, user, ids, tasks)
           && BirthsOf(sid, user, ids, tasks)[ids[i]] == Birth(sid, true, tasks[i].maxAttempts, user)
    decreases |ids|
  {
    var n := |ids| - 1;
    if i == n {
    } else {
      BirthOfTask(sid, user, ids[..n], tasks[..n], i);
      assert ids[..n][i] == ids[i] && tasks[..n][i] == tasks[i] && ids[i] != ids[n];
    }
  }

  lemma BirthsOfAt(sid: nat, user: int, ids: seq<Id>, tasks: seq<NewTask>)
    requires |ids| == |tasks| && Distinct(ids)
    ensures forall id :: id in BirthsOf(sid, user, ids, tasks) <==> id in ids
    ensures forall i :: 0 <= i < |ids| ==> BirthsOf(sid, user, ids, tasks)[ids[i]] == Birth(sid, true, tasks[i].maxAttempts, user)
  {
    BirthsOfKeys(sid, user, ids, tasks);
    forall i | 0 <= i < |ids|
      ensures ids[i] in BirthsOf(sid, user, ids, tasks)
           && BirthsOf(sid, user, ids, tasks)[ids[i]] == Birth(sid, true, tasks[i].maxAttempts, user)
    {
      BirthOfTask(sid, user, ids, tasks, i);
    }
  }

  /** The transaction of a freshly inserted batch, message by message. */
  lemma BatchTx(table: Table, user: int, ids: seq<Id>, tasks: seq<NewTask>)
    requires |ids| == |tasks| && Distinct(ids) && forall id :: id in ids ==> id !in table
    ensures var tx, ms := InsertAll(table, EMPTY_TX, user, ids, tasks), MessagesOf(ids, tasks);
      && (forall id :: id in tx.writes <==> id in ids)
      && (forall i :: 0 <= i < |ms| ==>
            ms[i].id in tx.writes && tx.writes[ms[i].id].status == Pending && tx.writes[ms[i].id].maxAttempts == ms[i].attempts)
      && tx.notices == seq(|ms|, i requires 0 <= i < |ms| => Notice(ms[i].id, Pending, Insert))
  {
    InsertAllFresh(table, user, ids, tasks);
    RowsOfAt(user, ids, tasks);
    var ms := MessagesOf(ids, tasks);
    assert InsertNotices(ids) == seq(|ms|, i requires 0 <= i < |ms| => Notice(ms[i].id, Pending, Insert));
  }

  /** A batch is sound as soon as its messages are born, unsent, and written. */
  lemma BatchStarts(s: State, sid: nat, ids: seq<Id>, ms: seq<Message>, tx: Tx)
    requires Distinct(ids) && |ms| == |ids| && forall i :: 0 <= i < |ms| ==> ms[i].id == ids[i]
    requires forall id :: id in tx.writes <==> id in ids
    requires forall i :: 0 <= i < |ms| ==>
               var m := ms[i];
               && m.id !in s.table && Sent(s.sent, m.id) == 0
               && BornAs(s, sid, true, m)
               && m.id in tx.writes && tx.writes[m.id].status == Pending && tx.writes[m.id].maxAttempts == m.attempts
    requires tx.notices == seq(|ms|, i requires 0 <= i < |ms| => Notice(ms[i].id, Pending, Insert))
    ensures BatchOk(s, sid, ms, 0, tx)
  {
    forall id ensures id in tx.writes <==> exists i :: 0 <= i < |ms| && ms[i].id == id {
      if id in tx.writes {
        var i :| 0 <= i < |ids| && ids[i] == id;
        assert ms[i].id == id;
      }
    }
  }

  lemma BatchInsertSession(s: State, ev: Event)
    requires Enabled(s, ev) && ev.BatchInsert?
    requires forall id :: id in ev.ids ==> id !in s.table && Sent(s.sent, id) == 0
    ensures SessionOk(Apply(s, ev), ev.sid)
  {
    var s' := Apply(s, ev);
    var ms, tx := MessagesOf(ev.ids, ev.tasks), InsertAll(s.table, EMPTY_TX, ev.user, ev.ids, ev.tasks);
    assert s'.sessions[ev.sid] == Session(BatchPublishing(ms, 0), tx);
    BatchTx(s.table, ev.user, ev.ids, ev.tasks);
    BirthsOfAt(ev.sid, ev.user, ev.ids, ev.tasks);
    BatchStarts(s', ev.sid, ev.ids, ms, tx);
  }

  lemma BatchInsertBirth(s: State, ev: Event, id: Id)
    requires Enabled(s, ev) && ev.BatchInsert? && id in ev.ids
    requires id !in s.table && Sent(s.sent, id) == 0
    ensures id in Apply(s, ev).births && BirthOk(Apply(s, ev), id) && Apply(s, ev).births[id].sid == ev.sid
  {
    BirthsOfAt(ev.sid, ev.user, ev.ids, ev.tasks);
    var i :| 0 <= i < |ev.ids| && ev.ids[i] == id;
    assert MessagesOf(ev.ids, ev.tasks)[i].id == id;
  }

  lemma BatchInsertStep(s: State, ev: Event)
    requires Inv(s) && Enabled(s, ev) && ev.BatchInsert?
    ensures Inv(Apply(s, ev))
  {
    var s' := Apply(s, ev);
    forall id | id in ev.ids
      ensures id !in s.table && Sent(s.sent, id) == 0
    {
      UnbornUnknown(s, id);
    }
    BatchInsertSession(s, ev);
    BatchTx(s.table, ev.user, ev.ids, ev.tasks);
    BirthsOfAt(ev.sid, ev.user, ev.ids, ev.tasks);
    forall id | id in ev.ids ensures BirthOk(s', id) && s'.births[id].sid == ev.sid {
      BatchInsertBirth(s, ev, id);
    }
    StartSound(s, ev.sid, s'.births, s'.sessions[ev.sid].pc, s'.sessions[ev.sid].tx);
  }

  // ---- every step, every run ----

  lemma StepKeepsInv(s: State, ev: Event)
    requires Inv(s) && Enabled(s, ev)
    ensures Inv(Apply(s, ev))
  {
    match ev
    case SingleInsert(_, _, _, _) => SingleInsertStep(s, ev);
    case SingleCommit(sid) => SingleCommitStep(s, sid);
    case SinglePublish(sid) => SinglePublishStep(s, sid);
    case SingleConfirm(sid) => SingleConfirmStep(s, sid);
    case SingleFinish(sid) => SingleFinishStep(s, sid);
    case BatchInsert(_, _, _, _) => BatchInsertStep(s, ev);
    case BatchPublish(sid) => BatchPublishStep(s, sid);
    case BatchCommit(sid) => BatchCommitStep(s, sid);
    case CancelSelect(_, _, _) => SelectStep(s, ev);
    case CancelWrite(sid) => CancelWriteStep(s, sid);
    case CancelFinish(sid) => if Permitted(s.sessions[sid].pc) { WriterFinishStep(s, sid); } else { AbortStep(s, sid); }
    case UpdateSelect(_, _, _, _) => SelectStep(s, ev);
    case UpdateWrite(sid) => UpdateWriteStep(s, sid);
    case UpdateFinish(sid) => if Permitted(s.sessions[sid].pc) { WriterFinishStep(s, sid); } else { AbortStep(s, sid); }
    case Fail(sid, accepted) => FailStep(s, sid, accepted);
  }

  lemma {:induction false} RunKeepsInv(s: State, evs: seq<Event>)
    requires Inv(s) && Run(s, evs)
    ensures Inv(After(s, evs))
    decreases |evs|
  {
    if evs == [] {
    } else {
      var n := |evs| - 1;
      Last(s, evs);
      RunKeepsInv(s, evs[..n]);
      StepKeepsInv(After(s, evs[..n]), evs[n]);
    }
  }

  lemma InitInv()
    ensures Inv(INIT)
  {
  }
}
