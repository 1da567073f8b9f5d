/** What the task protocol guarantees in every run, and where its promises stop. */
module TaskTheorems {
  import opened TaskStore
  import opened TaskProtocol
  import opened TaskInvariant

  ghost predicate Reachable(s: State) {
    exists evs :: Run(INIT, evs) && After(INIT, evs) == s
  }

  lemma ReachableInv(s: State)
    requires Reachable(s)
    ensures Inv(s)
  {
    var evs :| Run(INIT, evs) && After(INIT, evs) == s;
    InitInv();
    RunKeepsInv(INIT, evs);
  }

  // ---- rows and messages ----

  /** Past BEFORE RMQ means published exactly once, with the row's attempts, on either path; nothing is published twice. */
  lemma PublishedExactlyOnce(s: State, id: Id)
    requires Reachable(s)
    ensures Sent(s.sent, id) <= 1
    ensures id in s.table && s.table[id].status != BeforeRmq ==> Sent(s.sent, id) == 1
    ensures forall i :: 0 <= i < |s.sent| && s.sent[i].id in s.table ==>
              s.sent[i].attempts == s.table[s.sent[i].id].maxAttempts
  {
    ReachableInv(s);
    if id in s.births {
      assert BirthOk(s, id);
    } else {
      UnbornUnknown(s, id);
    }
    forall i | 0 <= i < |s.sent| && s.sent[i].id in s.table
      ensures s.sent[i].attempts == s.table[s.sent[i].id].maxAttempts
    {
      assert BirthOk(s, s.sent[i].id);
    }
  }

  /** A message without a committed row belongs to a batch still publishing or aborted; never to the single path. */
  lemma DanglingOnlyFromBatches(s: State, id: Id)
    requires Reachable(s) && Sent(s.sent, id) > 0 && id !in s.table
    ensures id in s.births && s.births[id].batch && s.births[id].sid in s.sessions
    ensures var pc := s.sessions[s.births[id].sid].pc; pc.BatchPublishing? || pc.Aborted?
  {
    ReachableInv(s);
    if id !in s.births { UnbornUnknown(s, id); }
    assert BirthOk(s, id);
  }

  /** A batch is committed all or none, wherever it failed. */
  lemma BatchAllOrNone(s: State, a: Id, b: Id)
    requires Reachable(s) && a in s.births && b in s.births
    requires s.births[a].batch && s.births[b].batch && s.births[b].sid == s.births[a].sid
    ensures a in s.table <==> b in s.table
  {
    ReachableInv(s);
    assert BirthOk(s, a) && BirthOk(s, b);
  }

  /** A BEFORE RMQ row has its message out exactly if its creator got that far, when the creator still lives. */
  lemma BeforeRmqMeaning(s: State, id: Id)
    requires Reachable(s) && id in s.table && s.table[id].status == BeforeRmq
    ensures id in s.births && !s.births[id].batch && s.births[id].sid in s.sessions
    ensures var pc := s.sessions[s.births[id].sid].pc;
            && (pc.SingleCommitted? || pc.SinglePublished? || pc.SingleConfirmed? || pc.Aborted?)
            && (!pc.Aborted? ==> (Sent(s.sent, id) == 1 <==> pc.SinglePublished? || pc.SingleConfirmed?))
  {
    ReachableInv(s);
    assert BirthOk(s, id);
    assert SessionOk(s, s.births[id].sid);
  }

  // ---- notifications ----

  /** A listener that replays the notifications holds exactly the committed statuses, and hears each task only rise. */
  lemma ListenerIsExact(s: State)
    requires Reachable(s)
    ensures Replay(s.delivered) == Statuses(s.table)
    ensures forall i, j :: 0 <= i < j < |s.delivered| && s.delivered[i].id == s.delivered[j].id ==>
              Rank(s.delivered[i].status) < Rank(s.delivered[j].status)
  {
    ReachableInv(s);
  }

  function Heard(notices: seq<Notice>, id: Id, status: Status): nat {
    if notices == [] then 0
    else
      var last := notices[|notices| - 1];
      Heard(notices[..|notices| - 1], id, status) + if last.id == id && last.status == status then 1 else 0
  }

  lemma {:induction false} HeardTop(notices: seq<Notice>, id: Id)
    requires Rising(notices)
    ensures Heard(notices, id, Canceled) == if id in Replay(notices) && Replay(notices)[id] == Canceled then 1 else 0
  {
    if notices == [] {
    } else {
      var n := |notices| - 1;
      HeardTop(notices[..n], id);
      if notices[n].id == id && id in Replay(notices[..n]) {
        assert Rank(Replay(notices[..n])[id]) < Rank(notices[n].status) by {
          LastHeard(notices[..n], id);
        }
      }
    }
  }

  lemma {:induction false} LastHeard(notices: seq<Notice>, id: Id)
    requires id in Replay(notices)
    ensures exists i :: 0 <= i < |notices| && notices[i].id == id && notices[i].status == Replay(notices)[id]
  {
    var n := |notices| - 1;
    if notices[n].id == id {
      assert notices[n].status == Replay(notices)[id];
    } else {
      LastHeard(notices[..n], id);
      var i :| 0 <= i < n && notices[..n][i].id == id && notices[..n][i].status == Replay(notices[..n])[id];
      assert notices[i].id == id && notices[i].status == Replay(notices)[id];
    }
  }

  /** However many cancels race, a canceled task is announced as canceled once, any other never. */
  lemma CanceledAnnouncedOnce(s: State, id: Id)
    requires Reachable(s)
    ensures Heard(s.delivered, id, Canceled) == if id in s.table && s.table[id].status == Canceled then 1 else 0
  {
    ReachableInv(s);
    HeardTop(s.delivered, id);
    assert id in Statuses(s.table) <==> id in s.table;
  }

  // ---- the life of a row ----

  /** A cancel by the row's owner, whose SELECT saw it pending, commits in this step. */
  ghost predicate CancelCommits(s: State, ev: Event, id: Id) {
    && ev.CancelFinish? && ev.sid in s.sessions && id in s.table
    && var pc := s.sessions[ev.sid].pc;
    && pc.CancelWritten? && pc.id == id && pc.seen == Pending && pc.user == s.table[id].owner
  }

  predicate Commits(ev: Event) {
    ev.SingleCommit? || ev.SingleFinish? || ev.BatchCommit? || ev.CancelFinish? || ev.UpdateFinish?
  }

  /** What a request may have written over a committed row. */
  lemma WrittenRow(s: State, sid: nat, id: Id)
    requires SessionsOk(s) && sid in s.sessions && id in s.table && id in s.sessions[sid].tx.writes
    ensures var pc, before, after := s.sessions[sid].pc, s.table[id], s.sessions[sid].tx.writes[id];
            && Later(before, after)
            && match pc
               case SingleConfirmed(m) =>
                 && before.status == BeforeRmq && after.status == Pending
                 && id in s.births && s.births[id].sid == sid
               case CancelWritten(cid, _, owner, seen) =>
                 && cid == id && owner == before.owner && seen == Pending
                 && before.status != BeforeRmq && after.status == Canceled
               case UpdateWritten(uid, _, owner, _) => uid == id && owner == before.owner && after.status == before.status
               case _ => false
  {
    assert SessionOk(s, sid);
    assert View(s.table, EMPTY_TX) == s.table;
  }

  lemma CancelHasWritten(s: State, ev: Event, id: Id)
    requires SessionsOk(s) && CancelCommits(s, ev, id) && id in s.table
    ensures id in s.sessions[ev.sid].tx.writes
  {
    assert SessionOk(s, ev.sid);
    assert View(s.table, EMPTY_TX) == s.table;
  }

  lemma TableStays(s: State, ev: Event)
    requires Enabled(s, ev) && !Commits(ev)
    ensures Apply(s, ev).table == s.table
  {
  }

  /** One step: no committed row is lost or changes hands; its status stays or moves to the next one. */
  lemma RowStep(s: State, ev: Event, id: Id)
    requires Inv(s) && Enabled(s, ev) && id in s.table
    ensures var s' := Apply(s, ev);
            && id in s'.table && Later(s.table[id], s'.table[id])
            && Rank(s'.table[id].status) <= Rank(s.table[id].status) + 1
            && (s.table[id].status == Pending ==> (s'.table[id].status == Canceled <==> CancelCommits(s, ev, id)))
            && (s'.table[id].status != s.table[id].status && s.table[id].status == BeforeRmq ==>
                  ev.SingleFinish? && id in s.births && s.births[id].sid == ev.sid)
  {
    if Commits(ev) {
      if CancelCommits(s, ev, id) { CancelHasWritten(s, ev, id); }
      if id in s.sessions[ev.sid].tx.writes { WrittenRow(s, ev.sid, id); }
    } else {
      TableStays(s, ev);
    }
  }

  /** Whatever row a cancel's or update's last step changes belongs to the user the request was made for. */
  lemma OnlyOwnersChangeRows(s: State, ev: Event, id: Id)
    requires Reachable(s) && Enabled(s, ev) && (ev.CancelFinish? || ev.UpdateFinish?)
    requires id in s.table && Apply(s, ev).table[id] != s.table[id]
    ensures var pc := s.sessions[ev.sid].pc; pc.id == id && pc.seen == Pending && pc.user == s.table[id].owner
  {
    ReachableInv(s);
    WrittenRow(s, ev.sid, id);
  }

  /** An update's commit, however interleaved, changes the content of one row and nothing else. */
  lemma UpdateOnlyContent(s: State, sid: nat, id: Id)
    requires Reachable(s) && Enabled(s, UpdateFinish(sid)) && id in s.table
    ensures var s' := Apply(s, UpdateFinish(sid));
            && s'.table.Keys == s.table.Keys && s'.delivered == s.delivered && s'.sent == s.sent
            && s'.table[id] == s.table[id].(content := s'.table[id].content)
            && (s'.table[id] != s.table[id] ==>
                  var pc := s.sessions[sid].pc; pc.id == id && pc.seen == Pending && pc.user == s.table[id].owner)
  {
    ReachableInv(s);
    assert SessionOk(s, sid);
    if Permitted(s.sessions[sid].pc) { UpdateCommitTable(s, sid); }
  }

  lemma UpdateCommitTable(s: State, sid: nat)
    requires sid in s.sessions && s.sessions[sid].pc.UpdateWritten? && SessionOk(s, sid)
    ensures var id, row := s.sessions[sid].pc.id, s.sessions[sid].tx.writes[s.sessions[sid].pc.id];
            && CommitTx(s, sid, Finished).table == s.table[id := row]
            && CommitTx(s, sid, Finished).delivered == s.delivered
            && row == s.table[id].(content := row.content)
  {
  }

  /** Any number of steps. */
  lemma {:induction false} RowOnlyMovesForward(s: State, evs: seq<Event>, id: Id)
    requires Inv(s) && Run(s, evs) && id in s.table
    ensures id in After(s, evs).table && Later(s.table[id], After(s, evs).table[id])
    decreases |evs|
  {
    if evs == [] {
    } else {
      var n := |evs| - 1;
      Last(s, evs);
      RunKeepsInv(s, evs[..n]);
      RowOnlyMovesForward(s, evs[..n], id);
      RowStep(After(s, evs[..n]), evs[n], id);
    }
  }

  /** From a reachable state on: BEFORE RMQ, pending, canceled is the only direction, and canceled is for good. */
  lemma StatusOnlyForward(s: State, evs: seq<Event>, id: Id)
    requires Reachable(s) && Run(s, evs) && id in s.table
    ensures id in After(s, evs).table
    ensures Rank(s.table[id].status) <= Rank(After(s, evs).table[id].status)
    ensures s.table[id].status == Canceled ==> After(s, evs).table[id].status == Canceled
    ensures After(s, evs).table[id].owner == s.table[id].owner
  {
    ReachableInv(s);
    RowOnlyMovesForward(s, evs, id);
  }

  lemma SentGrows(s: State, ev: Event)
    requires Enabled(s, ev)
    ensures s.sent <= Apply(s, ev).sent
  {
  }

  /** Nothing is ever taken back from the queue: canceling a task leaves its message published. */
  lemma {:induction false} MessagesNeverWithdrawn(s: State, evs: seq<Event>)
    requires Run(s, evs)
    ensures s.sent <= After(s, evs).sent
    decreases |evs|
  {
    if evs == [] {
    } else {
      var n := |evs| - 1;
      Last(s, evs);
      MessagesNeverWithdrawn(s, evs[..n]);
      SentGrows(After(s, evs[..n]), evs[n]);
    }
  }

  // ---- rows left at BEFORE RMQ ----

  ghost predicate StuckForever(s: State, id: Id)
    requires id in s.table && Inv(s)
  {
    forall evs :: Run(s, evs) ==> id in After(s, evs).table && After(s, evs).table[id].status == BeforeRmq
  }

  /** A committed BEFORE RMQ row whose request has died. */
  ghost predicate Orphan(s: State, id: Id) {
    && id in s.table && s.table[id].status == BeforeRmq
    && id in s.births && s.births[id].sid in s.sessions && s.sessions[s.births[id].sid].pc.Aborted?
  }

  lemma OrphanUnsent(s: State, ev: Event, id: Id)
    requires Inv(s) && Enabled(s, ev) && Orphan(s, id)
    ensures Sent(Apply(s, ev).sent, id) == Sent(s.sent, id)
  {
    if ev.SinglePublish? || ev.BatchPublish? || (ev.Fail? && ev.accepted) {
      var pc := s.sessions[ev.sid].pc;
      var m := if pc.SingleCommitted? then pc.m else pc.ms[pc.next];
      assert Creates(pc, m.id);
      assert SessionOk(s, ev.sid);
      CreatorKnown(s, ev.sid, m.id);
      SentAppend(s.sent, m, id);
    }
  }

  lemma OrphanStep(s: State, ev: Event, id: Id)
    requires Inv(s) && Enabled(s, ev) && Orphan(s, id)
    ensures Orphan(Apply(s, ev), id) && Sent(Apply(s, ev).sent, id) == Sent(s.sent, id)
  {
    RowStep(s, ev, id);
    OrphanUnsent(s, ev, id);
    BirthStays(s, ev, id);
  }

  lemma BirthStays(s: State, ev: Event, id: Id)
    requires Enabled(s, ev) && id in s.births
    ensures id in Apply(s, ev).births && Apply(s, ev).births[id] == s.births[id]
  {
    if ev.BatchInsert? {
      BirthsOfAt(ev.sid, ev.user, ev.ids, ev.tasks);
    }
  }

  /** An orphan stays one, and no message of it is published any more. */
  lemma {:induction false} OrphanStays(s: State, evs: seq<Event>, id: Id)
    requires Inv(s) && Run(s, evs) && Orphan(s, id)
    ensures Orphan(After(s, evs), id) && Sent(After(s, evs).sent, id) == Sent(s.sent, id)
    decreases |evs|
  {
    if evs == [] {
    } else {
      var n := |evs| - 1;
      Last(s, evs);
      OrphanStays(s, evs[..n], id);
      RunKeepsInv(s, evs[..n]);
      OrphanStep(After(s, evs[..n]), evs[n], id);
    }
  }

  /** A live creator can still bring its row to pending, if need be past a lock holder that fails. */
  lemma LiveCreatorCanConfirm(s: State, id: Id) returns (evs: seq<Event>)
    requires Inv(s) && id in s.table && s.table[id].status == BeforeRmq
    requires id in s.births && s.births[id].sid in s.sessions && !s.sessions[s.births[id].sid].pc.Aborted?
    ensures Run(s, evs) && id in After(s, evs).table && After(s, evs).table[id].status == Pending
    decreases match s.sessions[s.births[id].sid].pc case SingleCommitted(_) => 2 case SinglePublished(_) => 1 case _ => 0
  {
    var sid := s.births[id].sid;
    assert BirthOk(s, id) && SessionOk(s, sid);
    var pc := s.sessions[sid].pc;
    if pc.SingleCommitted? {
      var ev := SinglePublish(sid);
      StepKeepsInv(s, ev);
      var rest := LiveCreatorCanConfirm(Apply(s, ev), id);
      One(s, ev);
      Join(s, [ev], rest);
      evs := [ev] + rest;
    } else if pc.SinglePublished? {
      evs := [];
      var free := s;
      if !Unlocked(s, sid, id) {
        var holder :| holder in s.sessions && holder != sid && id in s.sessions[holder].tx.writes;
        evs := FreeRow(s, sid, holder, id);
        free := After(s, evs);
      }
      var confirmed := ConfirmFreeRow(free, sid, id);
      Join(s, evs, confirmed);
      evs := evs + confirmed;
    } else {
      assert pc.SingleConfirmed?;
      One(s, SingleFinish(sid));
      evs := [SingleFinish(sid)];
    }
  }

  lemma FreeRow(s: State, sid: nat, holder: nat, id: Id) returns (evs: seq<Event>)
    requires Inv(s) && sid in s.sessions && holder in s.sessions && holder != sid
    requires id in s.sessions[holder].tx.writes
    ensures Run(s, evs) && Inv(After(s, evs))
    ensures After(s, evs).sessions[sid := s.sessions[sid]] == After(s, evs).sessions
    ensures After(s, evs).table == s.table
    ensures Unlocked(After(s, evs), sid, id)
  {
    assert SessionOk(s, holder);
    var ev := Fail(holder, false);
    One(s, ev);
    StepKeepsInv(s, ev);
    evs := [ev];
  }

  lemma ConfirmFreeRow(s: State, sid: nat, id: Id) returns (evs: seq<Event>)
    requires Inv(s) && sid in s.sessions && s.sessions[sid].pc.SinglePublished? && s.sessions[sid].pc.m.id == id
    requires Unlocked(s, sid, id)
    ensures Run(s, evs) && id in After(s, evs).table && After(s, evs).table[id].status == Pending
  {
    assert SessionOk(s, sid);
    var s1 := Apply(s, SingleConfirm(sid));
    One(s, SingleConfirm(sid));
    SingleConfirmStep(s, sid);
    assert SessionOk(s1, sid);
    Extend(s, [SingleConfirm(sid)], SingleFinish(sid));
    evs := [SingleConfirm(sid)] + [SingleFinish(sid)];
  }

  /**
   A BEFORE RMQ row keeps that status in every continuation, so that no cancel or update of it is
   ever permitted, exactly when the request that created it has died.
   */
  lemma StuckForeverIff(s: State, id: Id)
    requires Reachable(s) && id in s.table && s.table[id].status == BeforeRmq
    ensures Inv(s) && id in s.births && s.births[id].sid in s.sessions
    ensures StuckForever(s, id) <==> s.sessions[s.births[id].sid].pc.Aborted?
  {
    ReachableInv(s);
    assert BirthOk(s, id);
    if s.sessions[s.births[id].sid].pc.Aborted? {
      forall evs | Run(s, evs)
        ensures id in After(s, evs).table && After(s, evs).table[id].status == BeforeRmq
      {
        OrphanStays(s, evs, id);
      }
    } else {
      var evs := LiveCreatorCanConfirm(s, id);
      assert After(s, evs).table[id].status != BeforeRmq;
    }
  }

  /** The task is never announced to the workers, and its row stays as it is. */
  ghost predicate LostForever(s: State, id: Id)
    requires id in s.table && Inv(s)
  {
    StuckForever(s, id) && forall evs :: Run(s, evs) ==> Sent(After(s, evs).sent, id) == 0
  }

  /** Such a task is really lost, its message never published, iff it had not been published when its request died. */
  lemma LostForeverIff(s: State, id: Id)
    requires Reachable(s) && id in s.table && s.table[id].status == BeforeRmq
    ensures Inv(s) && id in s.births && s.births[id].sid in s.sessions
    ensures LostForever(s, id) <==> s.sessions[s.births[id].sid].pc.Aborted? && Sent(s.sent, id) == 0
  {
    StuckForeverIff(s, id);
    if s.sessions[s.births[id].sid].pc.Aborted? && Sent(s.sent, id) == 0 {
      forall evs | Run(s, evs) ensures Sent(After(s, evs).sent, id) == 0 {
        OrphanStays(s, evs, id);
      }
    } else {
      assert Run(s, []) && After(s, []) == s;
    }
  }

  // ---- cancel and update, alone and interleaved ----

  ghost predicate CanceledAt(s: State, evs: seq<Event>, k: nat, id: Id) {
    k < |evs| && Run(s, evs[..k]) && CancelCommits(After(s, evs[..k]), evs[k], id)
  }

  /** Some step of the run cancels the task. */
  ghost predicate CanceledDuring(s: State, evs: seq<Event>, id: Id) {
    exists k :: CanceledAt(s, evs, k, id)
  }

  lemma CanceledDuringNext(s: State, evs: seq<Event>, id: Id)
    requires Run(s, evs) && evs != [] && Run(s, evs[..|evs| - 1])
    ensures var n := |evs| - 1;
            CanceledDuring(s, evs, id) <==> CanceledDuring(s, evs[..n], id) || CancelCommits(After(s, evs[..n]), evs[n], id)
  {
    var n := |evs| - 1;
    forall k: nat ensures CanceledAt(s, evs, k, id) <==>
                            CanceledAt(s, evs[..n], k, id) || (k == n && CancelCommits(After(s, evs[..n]), evs[n], id))
    {
      if k < n { assert evs[..n][..k] == evs[..k]; }
    }
    if CancelCommits(After(s, evs[..n]), evs[n], id) { assert CanceledAt(s, evs, n, id); }
    if k :| CanceledAt(s, evs[..n], k, id) { assert CanceledAt(s, evs, k, id); }
  }

  /** Until a cancel commits, a pending row stays pending. */
  lemma {:induction false} PendingUntilCanceled(s: State, evs: seq<Event>, id: Id)
    requires Inv(s) && Run(s, evs) && id in s.table && s.table[id].status == Pending
    ensures id in After(s, evs).table
    ensures After(s, evs).table[id].status == if CanceledDuring(s, evs, id) then Canceled else Pending
    decreases |evs|
  {
    if evs == [] {
    } else {
      var n := |evs| - 1;
      Last(s, evs);
      PendingUntilCanceled(s, evs[..n], id);
      RunKeepsInv(s, evs[..n]);
      RowStep(After(s, evs[..n]), evs[n], id);
      CanceledDuringNext(s, evs, id);
    }
  }

  /** How far a cancel or update has come; 3 for requests of other kinds. */
  function Stage(pc: Pc): nat {
    match pc
    case CancelSelected(_, _, _, _) => 0
    case UpdateSelected(_, _, _, _, _) => 0
    case CancelWritten(_, _, _, _) => 1
    case UpdateWritten(_, _, _, _) => 1
    case Finished => 2
    case Aborted => 2
    case _ => 3
  }

  /** A cancel or update is left alone by the others, and never goes back. */
  ghost predicate MovedOn(s: State, s': State, sid: nat)
    requires sid in s.sessions
  {
    && sid in s'.sessions && Stage(s'.sessions[sid].pc) <= 2
    && (s'.sessions[sid] == s.sessions[sid] || Stage(s'.sessions[sid].pc) > Stage(s.sessions[sid].pc))
  }

  lemma MoveOnStep(s: State, ev: Event, sid: nat)
    requires Enabled(s, ev) && sid in s.sessions && Stage(s.sessions[sid].pc) <= 2
    ensures MovedOn(s, Apply(s, ev), sid)
  {
  }

  lemma {:induction false} MovesOn(s: State, evs: seq<Event>, sid: nat)
    requires Run(s, evs) && sid in s.sessions && Stage(s.sessions[sid].pc) <= 2
    ensures MovedOn(s, After(s, evs), sid)
    decreases |evs|
  {
    if evs == [] {
    } else {
      var n := |evs| - 1;
      Last(s, evs);
      MovesOn(s, evs[..n], sid);
      MoveOnStep(After(s, evs[..n]), evs[n], sid);
    }
  }

  /** Only the writer of a row can change it: the row lock. */
  lemma LockedRowStep(s: State, ev: Event, sid: nat, id: Id)
    requires Inv(s) && Enabled(s, ev) && ev.sid != sid && sid in s.sessions && id in s.sessions[sid].tx.writes
    ensures SameRow(s, Apply(s, ev), id)
  {
  }

  lemma {:induction false} LockedRowStays(s: State, evs: seq<Event>, sid: nat, id: Id)
    requires Inv(s) && Run(s, evs) && sid in s.sessions && Stage(s.sessions[sid].pc) == 1 && id in s.sessions[sid].tx.writes
    requires sid in After(s, evs).sessions && Stage(After(s, evs).sessions[sid].pc) == 1
    ensures SameRow(s, After(s, evs), id)
    decreases |evs|
  {
    if evs == [] {
    } else {
      var n := |evs| - 1;
      Last(s, evs);
      var before := After(s, evs[..n]);
      MovesOn(s, evs[..n], sid);
      MoveOnStep(before, evs[n], sid);
      RunKeepsInv(s, evs[..n]);
      LockedRowStays(s, evs[..n], sid, id);
      assert evs[n].sid != sid;
      LockedRowStep(before, evs[n], sid, id);
    }
  }

  /** A cancel's or update's SELECT and write, with any steps of others after each. */
  ghost predicate Interleaved(s: State, select: Event, between: seq<Event>, write: Event, during: seq<Event>) {
    && Enabled(s, select) && Run(Apply(s, select), between)
    && Enabled(After(Apply(s, select), between), write)
    && Run(Apply(After(Apply(s, select), between), write), during)
  }

  ghost function AfterInterleaved(s: State, select: Event, between: seq<Event>, write: Event, during: seq<Event>): State
    requires Interleaved(s, select, between, write, during)
  {
    After(Apply(After(Apply(s, select), between), write), during)
  }

  /** What holds from the write until the request ends: the row as the write found it, the request's own writes. */
  lemma HeldUntilEnd(s: State, write: Event, during: seq<Event>, id: Id)
    requires Inv(s) && Enabled(s, write) && (write.UpdateWrite? || write.CancelWrite?)
    requires Run(Apply(s, write), during) && id in Apply(s, write).sessions[write.sid].tx.writes
    requires var s' := After(Apply(s, write), during); write.sid in s'.sessions && Stage(s'.sessions[write.sid].pc) == 1
    ensures var s' := After(Apply(s, write), during);
            SameRow(s, s', id) && s'.sessions[write.sid] == Apply(s, write).sessions[write.sid]
  {
    var written := Apply(s, write);
    StepKeepsInv(s, write);
    MovesOn(written, during, write.sid);
    LockedRowStays(written, during, write.sid, id);
    assert SameRow(s, written, id);
  }

  /** What the write finds: the row pending or canceled by others since the SELECT, the request as the SELECT left it. */
  lemma FoundByWrite(s: State, select: Event, between: seq<Event>, id: Id)
    requires Inv(s) && Enabled(s, select) && (select.UpdateSelect? || select.CancelSelect?) && select.id == id
    requires id in s.table && s.table[id].status == Pending && Run(Apply(s, select), between)
    requires var s' := After(Apply(s, select), between);
             select.sid in s'.sessions && Stage(s'.sessions[select.sid].pc) == 0
    ensures var s' := After(Apply(s, select), between);
            && Inv(s') && s'.sessions[select.sid] == Apply(s, select).sessions[select.sid]
            && id in s'.table
            && s'.table[id].status == if CanceledDuring(Apply(s, select), between, id) then Canceled else Pending
  {
    var selected := Apply(s, select);
    StepKeepsInv(s, select);
    PendingUntilCanceled(selected, between, id);
    MovesOn(selected, between, select.sid);
    RunKeepsInv(selected, between);
  }

  ghost predicate Writes(select: Event, write: Event, finish: Event) {
    && select.sid == write.sid == finish.sid
    && ((select.CancelSelect? && write.CancelWrite? && finish.CancelFinish?) ||
        (select.UpdateSelect? && write.UpdateWrite? && finish.UpdateFinish?))
  }

  /** A cancel or update reaches its end knowing exactly what its SELECT saw. */
  lemma RemembersSelect(s: State, select: Event, between: seq<Event>, write: Event, during: seq<Event>, finish: Event)
    requires Writes(select, write, finish) && select.id in s.table
    requires Interleaved(s, select, between, write, during)
    requires Enabled(AfterInterleaved(s, select, between, write, during), finish)
    ensures var pc := AfterInterleaved(s, select, between, write, during).sessions[finish.sid].pc;
            && (pc.CancelWritten? || pc.UpdateWritten?) && pc.id == select.id && pc.user == select.user
            && pc.owner == s.table[select.id].owner && pc.seen == s.table[select.id].status
  {
    var selected := Apply(s, select);
    var found := After(selected, between);
    MovesOn(selected, between, select.sid);
    assert found.sessions[select.sid] == selected.sessions[select.sid];
    var written := Apply(found, write);
    MovesOn(written, during, select.sid);
  }

  /**
   Whatever the others do after its SELECT and after its write: a cancel or update that gets to its
   end succeeds iff its SELECT saw a pending task of its own user; else it is rolled back and changes
   neither table nor notifications.
   */
  lemma SucceedsIff(s: State, select: Event, between: seq<Event>, write: Event, during: seq<Event>, finish: Event)
    requires Writes(select, write, finish) && select.id in s.table
    requires Interleaved(s, select, between, write, during)
    requires Enabled(AfterInterleaved(s, select, between, write, during), finish)
    ensures var held := AfterInterleaved(s, select, between, write, during);
            var s' := Apply(held, finish);
            if s.table[select.id].owner == select.user && s.table[select.id].status == Pending
            then s'.sessions[finish.sid].pc == Finished
            else s'.sessions[finish.sid].pc == Aborted && s'.table == held.table && s'.delivered == held.delivered
  {
    RemembersSelect(s, select, between, write, during, finish);
  }

  /** A cancel or update of a task that is not there ends at once. */
  lemma MissingTask(s: State, select: Event)
    requires Enabled(s, select) && (select.CancelSelect? || select.UpdateSelect?) && select.id !in s.table
    ensures Apply(s, select) == s.(sessions := s.sessions[select.sid := Session(Aborted, EMPTY_TX)])
  {
  }

  lemma UpdateWritesRow(s: State, sid: nat, id: Id, user: int, content: Content)
    requires Enabled(s, UpdateWrite(sid)) && id in s.table
    requires s.sessions[sid] == Session(UpdateSelected(id, user, user, Pending, content), EMPTY_TX)
    ensures Apply(s, UpdateWrite(sid)).sessions[sid]
         == Session(UpdateWritten(id, user, user, Pending), Tx(map[id := s.table[id].(content := content)], []))
  {
    assert View(s.table, EMPTY_TX) == s.table;
  }

  lemma UpdateEnds(s: State, sid: nat, id: Id, user: int, content: Content)
    requires sid in s.sessions && id in s.table
    requires s.sessions[sid]
          == Session(UpdateWritten(id, user, user, Pending), Tx(map[id := s.table[id].(content := content)], []))
    ensures Enabled(s, UpdateFinish(sid))
    ensures var s' := Apply(s, UpdateFinish(sid));
            s'.sessions[sid].pc == Finished && id in s'.table && s'.table[id] == s.table[id].(content := content)
  {
  }

  /** From the SELECT to the UPDATE. */
  lemma UpdateFound(s: State, sid: nat, id: Id, user: int, content: Content, between: seq<Event>)
    requires Inv(s) && id in s.table && s.table[id].status == Pending && s.table[id].owner == user
    requires Enabled(s, UpdateSelect(sid, id, user, content)) && Run(Apply(s, UpdateSelect(sid, id, user, content)), between)
    requires Enabled(After(Apply(s, UpdateSelect(sid, id, user, content)), between), UpdateWrite(sid))
    ensures var selected := Apply(s, UpdateSelect(sid, id, user, content));
            var found := After(selected, between);
            && Inv(found) && found.sessions[sid] == Session(UpdateSelected(id, user, user, Pending, content), EMPTY_TX)
            && id in found.table
            && found.table[id].status == if CanceledDuring(selected, between, id) then Canceled else Pending
  {
    FoundByWrite(s, UpdateSelect(sid, id, user, content), between, id);
  }

  /** From the UPDATE to the commit. */
  lemma UpdateFromFound(s: State, sid: nat, id: Id, user: int, content: Content, during: seq<Event>)
    requires Inv(s) && Enabled(s, UpdateWrite(sid)) && id in s.table
    requires s.sessions[sid] == Session(UpdateSelected(id, user, user, Pending, content), EMPTY_TX)
    requires Run(Apply(s, UpdateWrite(sid)), during)
    requires Enabled(After(Apply(s, UpdateWrite(sid)), during), UpdateFinish(sid))
    ensures var s' := Apply(After(Apply(s, UpdateWrite(sid)), during), UpdateFinish(sid));
            s'.sessions[sid].pc == Finished && id in s'.table && s'.table[id] == s.table[id].(content := content)
  {
    UpdateWritesRow(s, sid, id, user, content);
    HeldUntilEnd(s, UpdateWrite(sid), during, id);
    UpdateEnds(After(Apply(s, UpdateWrite(sid)), during), sid, id, user, content);
  }

  /**
   An update that saw a pending task of its own and gets to its end commits its content, whatever
   the others do. The task is still pending then iff no cancel of it committed between the
   update's SELECT and its UPDATE; after the UPDATE none can.
   */
  lemma UpdateHitsPendingIff(s: State, sid: nat, id: Id, user: int, content: Content, between: seq<Event>, during: seq<Event>)
    requires Reachable(s) && id in s.table && s.table[id].status == Pending && s.table[id].owner == user
    requires Interleaved(s, UpdateSelect(sid, id, user, content), between, UpdateWrite(sid), during)
    requires Enabled(AfterInterleaved(s, UpdateSelect(sid, id, user, content), between, UpdateWrite(sid), during),
                     UpdateFinish(sid))
    ensures var select := UpdateSelect(sid, id, user, content);
            var s' := Apply(AfterInterleaved(s, select, between, UpdateWrite(sid), during), UpdateFinish(sid));
            && s'.sessions[sid].pc == Finished
            && id in s'.table && s'.table[id].content == content
            && s'.table[id].status == if CanceledDuring(Apply(s, select), between, id) then Canceled else Pending
  {
    ReachableInv(s);
    var select := UpdateSelect(sid, id, user, content);
    UpdateFound(s, sid, id, user, content, between);
    UpdateFromFound(After(Apply(s, select), between), sid, id, user, content, during);
  }

  /** The one row and the notice of a cancel, which has nothing to announce if the row is canceled already. */
  function CancelTx(id: Id, row: Row): Tx {
    Tx(map[id := row.(status := Canceled)], if row.status == Canceled then [] else [Notice(id, Canceled, Update)])
  }

  lemma CancelWritesRow(s: State, sid: nat, id: Id, user: int)
    requires Enabled(s, CancelWrite(sid)) && id in s.table
    requires s.sessions[sid] == Session(CancelSelected(id, user, user, Pending), EMPTY_TX)
    ensures Apply(s, CancelWrite(sid)).sessions[sid]
         == Session(CancelWritten(id, user, user, Pending), CancelTx(id, s.table[id]))
  {
    assert View(s.table, EMPTY_TX) == s.table;
  }

  lemma CancelEnds(s: State, sid: nat, id: Id, user: int)
    requires sid in s.sessions && id in s.table
    requires s.sessions[sid] == Session(CancelWritten(id, user, user, Pending), CancelTx(id, s.table[id]))
    ensures Enabled(s, CancelFinish(sid))
    ensures var s' := Apply(s, CancelFinish(sid));
            && s'.sessions[sid].pc == Finished && id in s'.table && s'.table[id].status == Canceled
            && s'.delivered == s.delivered + if s.table[id].status == Canceled then [] else [Notice(id, Canceled, Update)]
  {
  }

  /** From the UPDATE to the commit. */
  lemma CancelFromFound(s: State, sid: nat, id: Id, user: int, during: seq<Event>)
    requires Inv(s) && Enabled(s, CancelWrite(sid)) && id in s.table
    requires s.sessions[sid] == Session(CancelSelected(id, user, user, Pending), EMPTY_TX)
    requires Run(Apply(s, CancelWrite(sid)), during)
    requires Enabled(After(Apply(s, CancelWrite(sid)), during), CancelFinish(sid))
    ensures var held := After(Apply(s, CancelWrite(sid)), during);
            var s' := Apply(held, CancelFinish(sid));
            && id in held.table && held.table[id] == s.table[id]
            && s'.sessions[sid].pc == Finished && id in s'.table && s'.table[id].status == Canceled
            && s'.delivered == held.delivered + if s.table[id].status == Canceled then [] else [Notice(id, Canceled, Update)]
  {
    CancelWritesRow(s, sid, id, user);
    HeldUntilEnd(s, CancelWrite(sid), during, id);
    CancelEnds(After(Apply(s, CancelWrite(sid)), during), sid, id, user);
  }

  /**
   A cancel that saw a pending task of its own and gets to its end succeeds and leaves the task
   canceled, whatever the others do. It hits a pending task, and is announced, iff no other cancel
   of it committed between its SELECT and its UPDATE.
   */
  lemma CancelHitsPendingIff(s: State, sid: nat, id: Id, user: int, between: seq<Event>, during: seq<Event>)
    requires Reachable(s) && id in s.table && s.table[id].status == Pending && s.table[id].owner == user
    requires Interleaved(s, CancelSelect(sid, id, user), between, CancelWrite(sid), during)
    requires Enabled(AfterInterleaved(s, CancelSelect(sid, id, user), between, CancelWrite(sid), during), CancelFinish(sid))
    ensures var select := CancelSelect(sid, id, user);
            var found := AfterInterleaved(s, select, between, CancelWrite(sid), during);
            var s' := Apply(found, CancelFinish(sid));
            var first := !CanceledDuring(Apply(s, select), between, id);
            && s'.sessions[sid].pc == Finished
            && id in found.table && found.table[id].status == (if first then Pending else Canceled)
            && id in s'.table && s'.table[id].status == Canceled
            && s'.delivered == found.delivered + if first then [Notice(id, Canceled, Update)] else []
  {
    ReachableInv(s);
    var select := CancelSelect(sid, id, user);
    FoundByWrite(s, select, between, id);
    CancelFromFound(After(Apply(s, select), between), sid, id, user, during);
  }

  /** The UPDATE and the commit of an update that saw its own task pending. */
  lemma UpdateCommits(s: State, sid: nat, id: Id, user: int, content: Content)
    requires Enabled(s, UpdateWrite(sid)) && id in s.table
    requires s.sessions[sid] == Session(UpdateSelected(id, user, user, Pending, content), EMPTY_TX)
    ensures var written := Apply(s, UpdateWrite(sid));
            && Enabled(written, UpdateFinish(sid))
            && Apply(written, UpdateFinish(sid)).table == s.table[id := s.table[id].(content := content)]
            && Apply(written, UpdateFinish(sid)).sessions == s.sessions[sid := Session(Finished, EMPTY_TX)]
  {
    assert View(s.table, EMPTY_TX) == s.table;
  }

  /** What the three UPDATE statements do to a committed row, in a transaction that has done nothing else. */
  lemma Statements(table: Table, id: Id, content: Content)
    requires id in table
    ensures CancelUpdate(table, EMPTY_TX, id).writes == map[id := table[id].(status := Canceled)]
    ensures ContentUpdate(table, EMPTY_TX, id, content) == Tx(map[id := table[id].(content := content)], [])
    ensures ConfirmUpdate(table, EMPTY_TX, id)
         == if table[id].status == BeforeRmq
            then Tx(map[id := table[id].(status := Pending)], [Notice(id, Pending, Update)]) else EMPTY_TX
  {
    assert View(table, EMPTY_TX) == table;
  }

  /** The five steps of the single path, nothing in between. */
  lemma CreateSteps(s: State, sid: nat, id: Id, user: int, task: NewTask)
    requires sid !in s.sessions && id !in s.births && id !in s.table
    requires forall other :: other in s.sessions ==> id !in s.sessions[other].tx.writes
    ensures var s1 := Apply(s, SingleInsert(sid, id, user, task));
            && Enabled(s1, SingleCommit(sid))
            && var s2 := Apply(s1, SingleCommit(sid));
            && Enabled(s2, SinglePublish(sid))
            && s2.table == s.table[id := Row(user, task.content, task.maxAttempts, 0, BeforeRmq)]
            && s2.delivered == s.delivered + [Notice(id, BeforeRmq, Insert)] && s2.sent == s.sent
            && s2.sessions == s.sessions[sid := Session(SingleCommitted(Message(id, task.maxAttempts)), EMPTY_TX)]
  {
    assert View(s.table, EMPTY_TX) == s.table;
  }

  lemma ConfirmSteps(s: State, sid: nat, m: Message)
    requires sid in s.sessions && s.sessions[sid] == Session(SingleCommitted(m), EMPTY_TX)
    requires m.id in s.table && s.table[m.id].status == BeforeRmq && Unlocked(s, sid, m.id)
    ensures Enabled(s, SinglePublish(sid))
    ensures var s3 := Apply(s, SinglePublish(sid));
            && Enabled(s3, SingleConfirm(sid))
            && var s4 := Apply(s3, SingleConfirm(sid));
            && Enabled(s4, SingleFinish(sid))
            && var s5 := Apply(s4, SingleFinish(sid));
            && s5.table == s.table[m.id := s.table[m.id].(status := Pending)]
            && s5.delivered == s.delivered + [Notice(m.id, Pending, Update)] && s5.sent == s.sent + [m]
            && s5.sessions == s.sessions[sid := Session(Finished, EMPTY_TX)]
  {
    assert View(s.table, EMPTY_TX) == s.table;
  }

  lemma CreateRun(s: State, sid: nat, id: Id, user: int, task: NewTask)
    requires sid !in s.sessions && id !in s.births && id !in s.table
    requires forall other :: other in s.sessions ==> id !in s.sessions[other].tx.writes
    ensures var evs := [SingleInsert(sid, id, user, task)] + [SingleCommit(sid)];
            && Run(s, evs)
            && var s' := After(s, evs);
            && s'.table == s.table[id := Row(user, task.content, task.maxAttempts, 0, BeforeRmq)]
            && s'.delivered == s.delivered + [Notice(id, BeforeRmq, Insert)] && s'.sent == s.sent
            && s'.sessions == s.sessions[sid := Session(SingleCommitted(Message(id, task.maxAttempts)), EMPTY_TX)]
  {
    CreateSteps(s, sid, id, user, task);
    One(s, SingleInsert(sid, id, user, task));
    Extend(s, [SingleInsert(sid, id, user, task)], SingleCommit(sid));
  }

  lemma ConfirmRun(s: State, sid: nat, m: Message)
    requires sid in s.sessions && s.sessions[sid] == Session(SingleCommitted(m), EMPTY_TX)
    requires m.id in s.table && s.table[m.id].status == BeforeRmq && Unlocked(s, sid, m.id)
    ensures var evs := [SinglePublish(sid)] + [SingleConfirm(sid)] + [SingleFinish(sid)];
            && Run(s, evs)
            && var s' := After(s, evs);
            && s'.table == s.table[m.id := s.table[m.id].(status := Pending)]
            && s'.delivered == s.delivered + [Notice(m.id, Pending, Update)] && s'.sent == s.sent + [m]
            && s'.sessions == s.sessions[sid := Session(Finished, EMPTY_TX)]
  {
    ConfirmSteps(s, sid, m);
    One(s, SinglePublish(sid));
    Extend(s, [SinglePublish(sid)], SingleConfirm(sid));
    Extend(s, [SinglePublish(sid)] + [SingleConfirm(sid)], SingleFinish(sid));
  }

  /** Run without interference, the single path leaves a pending row of the user's, one message and two notifications. */
  lemma SerialCreate(s: State, sid: nat, id: Id, user: int, task: NewTask)
    requires Reachable(s) && sid !in s.sessions && id !in s.births
    ensures var evs := [SingleInsert(sid, id, user, task)] + [SingleCommit(sid)]
                     + ([SinglePublish(sid)] + [SingleConfirm(sid)] + [SingleFinish(sid)]);
            && Run(s, evs)
            && var s' := After(s, evs);
            && s'.table == s.table[id := Row(user, task.content, task.maxAttempts, 0, Pending)]
            && s'.sent == s.sent + [Message(id, task.maxAttempts)]
            && s'.delivered == s.delivered + [Notice(id, BeforeRmq, Insert)] + [Notice(id, Pending, Update)]
            && s'.sessions == s.sessions[sid := Session(Finished, EMPTY_TX)]
  {
    ReachableInv(s);
    UnbornUnknown(s, id);
    CreateRun(s, sid, id, user, task);
    var first := [SingleInsert(sid, id, user, task)] + [SingleCommit(sid)];
    assert Unlocked(After(s, first), sid, id);
    ConfirmRun(After(s, first), sid, Message(id, task.maxAttempts));
    Join(s, first, [SinglePublish(sid)] + [SingleConfirm(sid)] + [SingleFinish(sid)]);
  }

  /** The three steps of a cancel, nothing in between. */
  lemma CancelSteps(s: State, sid: nat, id: Id, user: int)
    requires sid !in s.sessions && id in s.table && Unlocked(s, sid, id)
    ensures var selected := Apply(s, CancelSelect(sid, id, user));
            && Enabled(selected, CancelWrite(sid))
            && var written := Apply(selected, CancelWrite(sid));
            && Enabled(written, CancelFinish(sid))
            && var s' := Apply(written, CancelFinish(sid));
            var ok := s.table[id].owner == user && s.table[id].status == Pending;
            && s'.table == (if ok then s.table[id := s.table[id].(status := Canceled)] else s.table)
            && s'.sessions == s.sessions[sid := Session(if ok then Finished else Aborted, EMPTY_TX)]
  {
    assert View(s.table, EMPTY_TX) == s.table;
  }

  /** Run without interference, a cancel changes the table iff the task is the user's and pending, and else aborts. */
  lemma SerialCancel(s: State, sid: nat, id: Id, user: int)
    requires sid !in s.sessions && id in s.table && Unlocked(s, sid, id)
    ensures var evs := [CancelSelect(sid, id, user), CancelWrite(sid), CancelFinish(sid)];
            var ok := s.table[id].owner == user && s.table[id].status == Pending;
            && Run(s, evs)
            && After(s, evs).table == (if ok then s.table[id := s.table[id].(status := Canceled)] else s.table)
            && After(s, evs).sessions == s.sessions[sid := Session(if ok then Finished else Aborted, EMPTY_TX)]
  {
    var evs := [CancelSelect(sid, id, user), CancelWrite(sid), CancelFinish(sid)];
    assert evs == [evs[0]] + [evs[1]] + [evs[2]];
    CancelSteps(s, sid, id, user);
    One(s, evs[0]);
    Extend(s, [evs[0]], evs[1]);
    Extend(s, [evs[0]] + [evs[1]], evs[2]);
  }

  /** The same of an update. */
  lemma SerialUpdate(s: State, sid: nat, id: Id, user: int, content: Content)
    requires sid !in s.sessions && id in s.table && Unlocked(s, sid, id)
    ensures var evs := [UpdateSelect(sid, id, user, content), UpdateWrite(sid), UpdateFinish(sid)];
            var ok := s.table[id].owner == user && s.table[id].status == Pending;
            && Run(s, evs)
            && After(s, evs).table == (if ok then s.table[id := s.table[id].(content := content)] else s.table)
            && After(s, evs).sessions == s.sessions[sid := Session(if ok then Finished else Aborted, EMPTY_TX)]
  {
    var evs := [UpdateSelect(sid, id, user, content), UpdateWrite(sid), UpdateFinish(sid)];
    assert evs == [evs[0]] + [evs[1]] + [evs[2]];
    UpdateSteps(s, sid, id, user, content);
    One(s, evs[0]);
    Extend(s, [evs[0]], evs[1]);
    Extend(s, [evs[0]] + [evs[1]], evs[2]);
  }

  lemma UpdateSteps(s: State, sid: nat, id: Id, user: int, content: Content)
    requires sid !in s.sessions && id in s.table && Unlocked(s, sid, id)
    ensures var selected := Apply(s, UpdateSelect(sid, id, user, content));
            && Enabled(selected, UpdateWrite(sid))
            && var written := Apply(selected, UpdateWrite(sid));
            && Enabled(written, UpdateFinish(sid))
            && var s' := Apply(written, UpdateFinish(sid));
            var ok := s.table[id].owner == user && s.table[id].status == Pending;
            && s'.table == (if ok then s.table[id := s.table[id].(content := content)] else s.table)
            && s'.sessions == s.sessions[sid := Session(if ok then Finished else Aborted, EMPTY_TX)]
  {
    assert View(s.table, EMPTY_TX) == s.table;
  }

  lemma SelectThenCancel(s: State, a: nat, b: nat, id: Id, user: int, content: Content)
    requires a !in s.sessions && b !in s.sessions && a != b
    requires id in s.table && s.table[id].status == Pending && s.table[id].owner == user && Unlocked(s, a, id)
    ensures var evs := [UpdateSelect(a, id, user, content)] + [CancelSelect(b, id, user), CancelWrite(b), CancelFinish(b)];
            && Run(s, evs)
            && var s' := After(s, evs);
            && s'.table == s.table[id := s.table[id].(status := Canceled)]
            && s'.sessions == s.sessions[a := Session(UpdateSelected(id, user, user, Pending, content), EMPTY_TX)]
                                        [b := Session(Finished, EMPTY_TX)]
  {
    var first := UpdateSelect(a, id, user, content);
    One(s, first);
    SerialCancel(Apply(s, first), b, id, user);
    Join(s, [first], [CancelSelect(b, id, user), CancelWrite(b), CancelFinish(b)]);
  }

  /** For every unlocked pending task: an update that straddles a cancel rewrites the canceled task. */
  lemma UpdateStraddlesCancel(s: State, a: nat, b: nat, id: Id, user: int, content: Content)
    requires a !in s.sessions && b !in s.sessions && a != b
    requires id in s.table && s.table[id].status == Pending && s.table[id].owner == user && Unlocked(s, a, id)
    ensures var evs := [UpdateSelect(a, id, user, content)] + [CancelSelect(b, id, user), CancelWrite(b), CancelFinish(b)]
                     + [UpdateWrite(a)] + [UpdateFinish(a)];
            && Run(s, evs) && After(s, evs).sessions[a := Session(Finished, EMPTY_TX)] == After(s, evs).sessions
            && After(s, evs).table == s.table[id := s.table[id].(status := Canceled, content := content)]
  {
    var evs := [UpdateSelect(a, id, user, content)] + [CancelSelect(b, id, user), CancelWrite(b), CancelFinish(b)];
    SelectThenCancel(s, a, b, id, user, content);
    var s2 := After(s, evs);
    assert Unlocked(s2, a, id);
    UpdateCommits(s2, a, id, user, content);
    Extend(s, evs, UpdateWrite(a));
    Extend(s, evs + [UpdateWrite(a)], UpdateFinish(a));
  }
}
