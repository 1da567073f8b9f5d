/**
 Task requests running at the same time: each request is a session that advances one statement,
 commit or publish at a time, in any interleaving, and may fail or crash before any step
 (domain/tasks.py, repository/task.py, services/database.py).
 Statements see committed rows (READ COMMITTED); a row written by one open transaction is locked
 against writes by another, which then reads the committed version.
 */
module TaskProtocol {
  import opened TaskStore
  import Runs

  /** Where a request stands: what it has done last. */
  datatype Pc =
    | SingleInserted(m: Message)
    | SingleCommitted(m: Message)
    | SinglePublished(m: Message)
    | SingleConfirmed(m: Message)
    | BatchPublishing(ms: seq<Message>, next: nat)
    | CancelSelected(id: Id, user: int, owner: int, seen: Status)
    | CancelWritten(id: Id, user: int, owner: int, seen: Status)
    | UpdateSelected(id: Id, user: int, owner: int, seen: Status, content: Content)
    | UpdateWritten(id: Id, user: int, owner: int, seen: Status)
    | Finished
    | Aborted

  datatype Session = Session(pc: Pc, tx: Tx)

  /** Who created a task: the request, whether by the batch path, with how many attempts, for which user. */
  datatype Birth = Birth(sid: nat, batch: bool, attempts: int, user: int)

  /** `births` records every task id ever generated; it is bookkeeping, not service state. */
  datatype State = State(
    table: Table,
    sessions: map<nat, Session>,
    sent: seq<Message>,
    delivered: seq<Notice>,
    births: map<Id, Birth>)

  const INIT := State(map[], map[], [], [], map[])

  datatype Event =
    | SingleInsert(sid: nat, id: Id, user: int, task: NewTask)
    | SingleCommit(sid: nat)
    | SinglePublish(sid: nat)
    | SingleConfirm(sid: nat)
    | SingleFinish(sid: nat)
    | BatchInsert(sid: nat, ids: seq<Id>, user: int, tasks: seq<NewTask>)
    | BatchPublish(sid: nat)
    | BatchCommit(sid: nat)
    | CancelSelect(sid: nat, id: Id, user: int)
    | CancelWrite(sid: nat)
    | CancelFinish(sid: nat)
    | UpdateSelect(sid: nat, id: Id, user: int, content: Content)
    | UpdateWrite(sid: nat)
    | UpdateFinish(sid: nat)
    /** An exception or a crash; a publish under way may have been accepted all the same. */
    | Fail(sid: nat, accepted: bool)

  predicate Starts(ev: Event) {
    ev.SingleInsert? || ev.BatchInsert? || ev.CancelSelect? || ev.UpdateSelect?
  }

  /** No other open transaction has written the row. */
  ghost predicate Unlocked(s: State, sid: nat, id: Id) {
    forall other :: other in s.sessions && other != sid ==> id !in s.sessions[other].tx.writes
  }

  ghost predicate Enabled(s: State, ev: Event) {
    if Starts(ev) then
      ev.sid !in s.sessions &&
      match ev
      case SingleInsert(_, id, _, _) => id !in s.births
      case BatchInsert(_, ids, _, tasks) =>
        |ids| == |tasks| && ids != [] && Distinct(ids) && forall id :: id in ids ==> id !in s.births
      case _ => true
    else
      ev.sid in s.sessions &&
      var pc := s.sessions[ev.sid].pc;
      match ev
      case SingleCommit(_) => pc.SingleInserted?
      case SinglePublish(_) => pc.SingleCommitted?
      case SingleConfirm(sid) => pc.SinglePublished? && Unlocked(s, sid, pc.m.id)
      case SingleFinish(_) => pc.SingleConfirmed?
      case BatchPublish(_) => pc.BatchPublishing? && pc.next < |pc.ms|
      case BatchCommit(_) => pc.BatchPublishing? && pc.next == |pc.ms|
      case CancelWrite(sid) => pc.CancelSelected? && (pc.seen == Pending ==> Unlocked(s, sid, pc.id))
      case CancelFinish(_) => pc.CancelWritten?
      case UpdateWrite(sid) => pc.UpdateSelected? && Unlocked(s, sid, pc.id)
      case UpdateFinish(_) => pc.UpdateWritten?
      case Fail(_, accepted) =>
        !pc.Finished? && !pc.Aborted? &&
        (accepted ==> pc.SingleCommitted? || (pc.BatchPublishing? && pc.next < |pc.ms|))
      case _ => false
  }

  // ---- effects ----

  function Move(s: State, sid: nat, pc: Pc, tx: Tx): State {
    s.(sessions := s.sessions[sid := Session(pc, tx)])
  }

  /** COMMIT: the rows become visible and the notifications are delivered, in order. */
  function CommitTx(s: State, sid: nat, pc: Pc): State
    requires sid in s.sessions
  {
    var tx := s.sessions[sid].tx;
    Move(s.(table := View(s.table, tx), delivered := s.delivered + tx.notices), sid, pc, EMPTY_TX)
  }

  function Send(s: State, m: Message): State {
    s.(sent := s.sent + [m])
  }

  function BirthsOf(sid: nat, user: int, ids: seq<Id>, tasks: seq<NewTask>): map<Id, Birth>
    requires |ids| == |tasks|
  {
    if ids == [] then map[]
    else
      var n := |ids| - 1;
      BirthsOf(sid, user, ids[..n], tasks[..n])[ids[n] := Birth(sid, true, tasks[n].maxAttempts, user)]
  }

  function Apply(s: State, ev: Event): State
    requires Enabled(s, ev)
  {
    match ev
    case SingleInsert(sid, id, user, task) =>
      Move(s.(births := s.births[id := Birth(sid, false, task.maxAttempts, user)]), sid,
           SingleInserted(Message(id, task.maxAttempts)),
           Put(s.table, EMPTY_TX, id, NewRow(user, task, BeforeRmq)))
    case SingleCommit(sid) =>
      CommitTx(s, sid, SingleCommitted(s.sessions[sid].pc.m))
    case SinglePublish(sid) =>
      var m := s.sessions[sid].pc.m;
      Move(Send(s, m), sid, SinglePublished(m), s.sessions[sid].tx)
    case SingleConfirm(sid) =>
      var m := s.sessions[sid].pc.m;
      Move(s, sid, SingleConfirmed(m), ConfirmUpdate(s.table, s.sessions[sid].tx, m.id))
    case SingleFinish(sid) =>
      CommitTx(s, sid, Finished)
    case BatchInsert(sid, ids, user, tasks) =>
      Move(s.(births := s.births + BirthsOf(sid, user, ids, tasks)), sid,
           BatchPublishing(MessagesOf(ids, tasks), 0),
           InsertAll(s.table, EMPTY_TX, user, ids, tasks))
    case BatchPublish(sid) =>
      var pc := s.sessions[sid].pc;
      Move(Send(s, pc.ms[pc.next]), sid, pc.(next := pc.next + 1), s.sessions[sid].tx)
    case BatchCommit(sid) =>
      CommitTx(s, sid, Finished)
    case CancelSelect(sid, id, user) =>
      if id in s.table
      then Move(s, sid, CancelSelected(id, user, s.table[id].owner, s.table[id].status), EMPTY_TX)
      else Move(s, sid, Aborted, EMPTY_TX)
    case CancelWrite(sid) =>
      var pc, tx := s.sessions[sid].pc, s.sessions[sid].tx;
      Move(s, sid, CancelWritten(pc.id, pc.user, pc.owner, pc.seen),
           if pc.seen == Pending then CancelUpdate(s.table, tx, pc.id) else tx)
    case CancelFinish(sid) =>
      if Permitted(s.sessions[sid].pc) then CommitTx(s, sid, Finished) else Move(s, sid, Aborted, EMPTY_TX)
    case UpdateSelect(sid, id, user, content) =>
      if id in s.table
      then Move(s, sid, UpdateSelected(id, user, s.table[id].owner, s.table[id].status, content), EMPTY_TX)
      else Move(s, sid, Aborted, EMPTY_TX)
    case UpdateWrite(sid) =>
      var pc := s.sessions[sid].pc;
      Move(s, sid, UpdateWritten(pc.id, pc.user, pc.owner, pc.seen),
           ContentUpdate(s.table, s.sessions[sid].tx, pc.id, pc.content))
    case UpdateFinish(sid) =>
      if Permitted(s.sessions[sid].pc) then CommitTx(s, sid, Finished) else Move(s, sid, Aborted, EMPTY_TX)
    case Fail(sid, accepted) =>
      var pc := s.sessions[sid].pc;
      var s1 := if accepted then Send(s, if pc.SingleCommitted? then pc.m else pc.ms[pc.next]) else s;
      Move(s1, sid, Aborted, EMPTY_TX)
  }

  /** The checks made after the write, on what the first SELECT saw. */
  predicate Permitted(pc: Pc)
    requires pc.CancelWritten? || pc.UpdateWritten?
  {
    pc.owner == pc.user && pc.seen == Pending
  }

  // ---- runs ----

  ghost predicate Run(s: State, evs: seq<Event>) {
    Runs.Run(Apply, s, evs)
  }

  ghost function After(s: State, evs: seq<Event>): State
    requires Run(s, evs)
  {
    Runs.After(Apply, s, evs)
  }

  lemma One(s: State, ev: Event)
    requires Enabled(s, ev)
    ensures Run(s, [ev]) && After(s, [ev]) == Apply(s, ev)
  {
    assert Apply.requires(s, ev);
    Runs.Single(Apply, s, ev);
  }

  lemma Extend(s: State, evs: seq<Event>, ev: Event)
    requires Run(s, evs) && Enabled(After(s, evs), ev)
    ensures Run(s, evs + [ev]) && After(s, evs + [ev]) == Apply(After(s, evs), ev)
  {
    assert Apply.requires(After(s, evs), ev);
    Runs.OneMore(Apply, s, evs, ev);
  }

  lemma Join(s: State, a: seq<Event>, b: seq<Event>)
    requires Run(s, a) && Run(After(s, a), b)
    ensures Run(s, a + b) && After(s, a + b) == After(After(s, a), b)
  {
    Runs.Compose(Apply, s, a, b);
  }

  lemma Last(s: State, evs: seq<Event>)
    requires Run(s, evs) && evs != []
    ensures var n := |evs| - 1;
            && Run(s, evs[..n]) && Enabled(After(s, evs[..n]), evs[n])
            && After(s, evs) == Apply(After(s, evs[..n]), evs[n])
  {
    Runs.LastStep(Apply, s, evs);
  }

  // ---- the invariant ----

  function Sent(sent: seq<Message>, id: Id): nat {
    if sent == [] then 0
    else Sent(sent[..|sent| - 1], id) + if sent[|sent| - 1].id == id then 1 else 0
  }

  /** The ids a request is creating. */
  ghost predicate Creates(pc: Pc, id: Id) {
    match pc
    case SingleInserted(m) => m.id == id
    case SingleCommitted(m) => m.id == id
    case SinglePublished(m) => m.id == id
    case SingleConfirmed(m) => m.id == id
    case BatchPublishing(ms, _) => exists i :: 0 <= i < |ms| && ms[i].id == id
    case _ => false
  }

  /** The message's task was generated by this request. */
  ghost predicate BornAs(s: State, sid: nat, batch: bool, m: Message) {
    && m.id in s.births && s.births[m.id].sid == sid
    && s.births[m.id].batch == batch && s.births[m.id].attempts == m.attempts
  }

  ghost predicate Single(s: State, sid: nat, m: Message, row: Status, count: nat) {
    && m.id in s.table && s.table[m.id].status == row
    && BornAs(s, sid, false, m)
    && Sent(s.sent, m.id) == count
  }

  /** Seeing `pending` once means the row is past BEFORE RMQ for good. */
  ghost predicate Saw(s: State, id: Id, owner: int, seen: Status) {
    id in s.table && s.table[id].owner == owner && (seen != BeforeRmq ==> s.table[id].status != BeforeRmq)
  }

  ghost predicate BatchOk(s: State, sid: nat, ms: seq<Message>, next: nat, tx: Tx) {
    && next <= |ms|
    && (forall i, j :: 0 <= i < j < |ms| ==> ms[i].id != ms[j].id)
    && (forall id :: id in tx.writes <==> exists i :: 0 <= i < |ms| && ms[i].id == id)
    && (forall i :: 0 <= i < |ms| ==>
          var m := ms[i];
          && m.id !in s.table && BornAs(s, sid, true, m)
          && tx.writes[m.id].status == Pending && tx.writes[m.id].maxAttempts == m.attempts
          && Sent(s.sent, m.id) == if i < next then 1 else 0)
    && tx.notices == seq(|ms|, i requires 0 <= i < |ms| => Notice(ms[i].id, Pending, Insert))
  }

  ghost predicate SessionOk(s: State, sid: nat)
    requires sid in s.sessions
  {
    var tx := s.sessions[sid].tx;
    match s.sessions[sid].pc
    case SingleInserted(m) =>
      && m.id !in s.table && BornAs(s, sid, false, m)
      && Sent(s.sent, m.id) == 0
      && tx.writes.Keys == {m.id} && tx.writes[m.id].status == BeforeRmq && tx.writes[m.id].maxAttempts == m.attempts
      && tx.notices == [Notice(m.id, BeforeRmq, Insert)]
    case SingleCommitted(m) => tx == EMPTY_TX && Single(s, sid, m, BeforeRmq, 0)
    case SinglePublished(m) => tx == EMPTY_TX && Single(s, sid, m, BeforeRmq, 1)
    case SingleConfirmed(m) =>
      && Single(s, sid, m, BeforeRmq, 1)
      && tx == Tx(map[m.id := s.table[m.id].(status := Pending)], [Notice(m.id, Pending, Update)])
    case BatchPublishing(ms, next) => BatchOk(s, sid, ms, next, tx)
    case CancelSelected(id, _, owner, seen) => tx == EMPTY_TX && Saw(s, id, owner, seen)
    case CancelWritten(id, _, owner, seen) =>
      && Saw(s, id, owner, seen)
      && tx == if seen == Pending then CancelUpdate(s.table, EMPTY_TX, id) else EMPTY_TX
    case UpdateSelected(id, _, owner, seen, _) => tx == EMPTY_TX && Saw(s, id, owner, seen)
    case UpdateWritten(id, _, owner, seen) =>
      && Saw(s, id, owner, seen)
      && tx.writes.Keys == {id} && tx.notices == []
      && tx.writes[id] == s.table[id].(content := tx.writes[id].content)
    case _ => tx == EMPTY_TX
  }

  ghost predicate SessionsOk(s: State) {
    && (forall sid {:trigger SessionOk(s, sid)} :: sid in s.sessions ==> SessionOk(s, sid))
    && (forall a, b, id :: a in s.sessions && b in s.sessions && a != b && id in s.sessions[a].tx.writes ==>
          id !in s.sessions[b].tx.writes)
  }

  /** A born id: which states of its creator go with a committed row and with how many messages. */
  ghost predicate BirthOk(s: State, id: Id)
    requires id in s.births
  {
    var birth := s.births[id];
    && birth.sid in s.sessions
    && Sent(s.sent, id) <= 1
    && var pc := s.sessions[birth.sid].pc;
    && (birth.batch ==>
          && (pc.BatchPublishing? || pc.Finished? || pc.Aborted?)
          && (pc.BatchPublishing? ==> Creates(pc, id))
          && (id in s.table <==> pc.Finished?)
          && (id in s.table ==> s.table[id].status != BeforeRmq))
    && (!birth.batch ==>
          && (id !in s.table ==> Sent(s.sent, id) == 0 && (pc.SingleInserted? || pc.Aborted?))
          && (Creates(pc, id) || pc.Finished? || pc.Aborted?)
          && !pc.BatchPublishing?
          && (pc.Finished? ==> id in s.table && s.table[id].status != BeforeRmq))
    && (id in s.table ==>
          && s.table[id].maxAttempts == birth.attempts
          && (s.table[id].status != BeforeRmq ==> Sent(s.sent, id) == 1))
  }

  ghost predicate BirthsOk(s: State) {
    && (forall id {:trigger BirthOk(s, id)} :: id in s.births ==> BirthOk(s, id))
    && (forall id :: id in s.table ==> id in s.births)
    && MessagesKnown(s)
  }

  /** Every message names a task that was really generated, with its number of attempts. */
  ghost predicate MessagesKnown(s: State) {
    forall i :: 0 <= i < |s.sent| ==>
      s.sent[i].id in s.births && s.sent[i].attempts == s.births[s.sent[i].id].attempts
  }

  /** Listening to the notifications from the start: the last status heard of each task. */
  function Replay(notices: seq<Notice>): map<Id, Status> {
    if notices == [] then map[]
    else
      var last := notices[|notices| - 1];
      Replay(notices[..|notices| - 1])[last.id := last.status]
  }

  function Statuses(table: Table): map<Id, Status> {
    map id | id in table :: table[id].status
  }

  /** Notifications about one task carry strictly later and later statuses. */
  ghost predicate Rising(notices: seq<Notice>) {
    forall i, j :: 0 <= i < j < |notices| && notices[i].id == notices[j].id ==>
      Rank(notices[i].status) < Rank(notices[j].status)
  }

  ghost predicate NoticesOk(s: State) {
    Replay(s.delivered) == Statuses(s.table) && Rising(s.delivered)
  }

  ghost predicate Inv(s: State) {
    SessionsOk(s) && BirthsOk(s) && NoticesOk(s)
  }
}
