/** Whose a task is: every row belongs to the user of the request that created it, in every run. */
module TaskOwners {
  import opened TaskStore
  import opened TaskProtocol
  import opened TaskInvariant
  import opened TaskTheorems

  /** The row of a task as its creation recorded it; no request of this service counts attempts. */
  ghost predicate Original(row: Row, birth: Birth) {
    row.owner == birth.user && row.maxAttempts == birth.attempts && row.attemptCount == 0
  }

  ghost predicate RowsOriginal(rows: Table, births: map<Id, Birth>) {
    forall id :: id in rows ==> id in births && Original(rows[id], births[id])
  }

  ghost predicate OwnersOk(s: State) {
    RowsOriginal(s.table, s.births) && forall sid :: sid in s.sessions ==> RowsOriginal(s.sessions[sid].tx.writes, s.births)
  }

  ghost predicate BirthsKept(before: map<Id, Birth>, after: map<Id, Birth>) {
    forall id :: id in before ==> id in after && after[id] == before[id]
  }

  lemma BatchOriginal(s: State, ev: Event)
    requires Enabled(s, ev) && ev.BatchInsert? && forall id :: id in ev.ids ==> id !in s.table
    ensures RowsOriginal(InsertAll(s.table, EMPTY_TX, ev.user, ev.ids, ev.tasks).writes, Apply(s, ev).births)
  {
    InsertAllFresh(s.table, ev.user, ev.ids, ev.tasks);
    RowsOfAt(ev.user, ev.ids, ev.tasks);
    BirthsOfAt(ev.sid, ev.user, ev.ids, ev.tasks);
  }

  /** What the request's own transaction holds after its step. */
  lemma OwnWritesOriginal(s: State, ev: Event)
    requires Inv(s) && OwnersOk(s) && Enabled(s, ev)
    ensures RowsOriginal(Apply(s, ev).sessions[ev.sid].tx.writes, Apply(s, ev).births)
  {
    if ev.BatchInsert? {
      forall id | id in ev.ids ensures id !in s.table {
        UnbornUnknown(s, id);
      }
      BatchOriginal(s, ev);
    } else if ev.SingleInsert? {
      UnbornUnknown(s, ev.id);
    } else {
      RewritesOriginal(s, ev);
    }
  }

  /** Everything but a creation writes only rows it has read. */
  lemma RewritesOriginal(s: State, ev: Event)
    requires OwnersOk(s) && Enabled(s, ev) && !ev.BatchInsert? && !ev.SingleInsert?
    ensures RowsOriginal(Apply(s, ev).sessions[ev.sid].tx.writes, s.births)
    ensures Apply(s, ev).births == s.births
  {
    if ev.sid in s.sessions { assert RowsOriginal(s.sessions[ev.sid].tx.writes, s.births); }
  }

  lemma TableOriginal(s: State, ev: Event)
    requires OwnersOk(s) && Enabled(s, ev)
    ensures RowsOriginal(Apply(s, ev).table, s.births)
  {
    if Commits(ev) {
      assert RowsOriginal(s.sessions[ev.sid].tx.writes, s.births);
    } else {
      TableStays(s, ev);
    }
  }

  lemma BirthsStay(s: State, ev: Event)
    requires Enabled(s, ev)
    ensures BirthsKept(s.births, Apply(s, ev).births)
  {
    forall id | id in s.births ensures id in Apply(s, ev).births && Apply(s, ev).births[id] == s.births[id] {
      BirthStays(s, ev, id);
    }
  }

  lemma OtherSessions(s: State, ev: Event, sid: nat)
    requires Enabled(s, ev) && sid in Apply(s, ev).sessions && sid != ev.sid
    ensures sid in s.sessions && Apply(s, ev).sessions[sid] == s.sessions[sid]
  {
  }

  lemma StepKeepsOwners(s: State, ev: Event)
    requires Inv(s) && OwnersOk(s) && Enabled(s, ev)
    ensures OwnersOk(Apply(s, ev))
  {
    var s' := Apply(s, ev);
    BirthsStay(s, ev);
    TableOriginal(s, ev);
    OwnWritesOriginal(s, ev);
    forall sid | sid in s'.sessions ensures RowsOriginal(s'.sessions[sid].tx.writes, s'.births) {
      if sid != ev.sid { OtherSessions(s, ev, sid); }
    }
  }

  lemma {:induction false} RunKeepsOwners(s: State, evs: seq<Event>)
    requires Inv(s) && OwnersOk(s) && Run(s, evs)
    ensures OwnersOk(After(s, evs)) && BirthsKept(s.births, After(s, evs).births)
    decreases |evs|
  {
    if evs == [] {
    } else {
      var n := |evs| - 1;
      Last(s, evs);
      RunKeepsOwners(s, evs[..n]);
      RunKeepsInv(s, evs[..n]);
      StepKeepsOwners(After(s, evs[..n]), evs[n]);
      BirthsStay(After(s, evs[..n]), evs[n]);
    }
  }

  lemma ReachableOwners(s: State)
    requires Reachable(s)
    ensures Inv(s) && OwnersOk(s)
  {
    var evs :| Run(INIT, evs) && After(INIT, evs) == s;
    ReachableInv(s);
    InitInv();
    RunKeepsOwners(INIT, evs);
  }

  /** A task created on the single path is its user's in every continuation in which it has been committed. */
  lemma CreatorOwns(s: State, ev: Event, evs: seq<Event>)
    requires Reachable(s) && Enabled(s, ev) && ev.SingleInsert?
    requires Run(Apply(s, ev), evs) && ev.id in After(Apply(s, ev), evs).table
    ensures var row := After(Apply(s, ev), evs).table[ev.id];
            row.owner == ev.user && row.maxAttempts == ev.task.maxAttempts && row.attemptCount == 0
  {
    ReachableOwners(s);
    StepKeepsInv(s, ev);
    StepKeepsOwners(s, ev);
    RunKeepsOwners(Apply(s, ev), evs);
    assert Apply(s, ev).births[ev.id].user == ev.user;
  }

  /** So is every task of a batch. */
  lemma BatchCreatorOwns(s: State, ev: Event, evs: seq<Event>, i: nat)
    requires Reachable(s) && Enabled(s, ev) && ev.BatchInsert? && i < |ev.ids|
    requires Run(Apply(s, ev), evs) && ev.ids[i] in After(Apply(s, ev), evs).table
    ensures var row := After(Apply(s, ev), evs).table[ev.ids[i]];
            row.owner == ev.user && row.maxAttempts == ev.tasks[i].maxAttempts && row.attemptCount == 0
  {
    ReachableOwners(s);
    StepKeepsInv(s, ev);
    StepKeepsOwners(s, ev);
    RunKeepsOwners(Apply(s, ev), evs);
    BirthsOfAt(ev.sid, ev.user, ev.ids, ev.tasks);
    assert Apply(s, ev).births[ev.ids[i]] == Birth(ev.sid, true, ev.tasks[i].maxAttempts, ev.user);
  }

  /** The user for whom a pending task was created can cancel it when no other request is in the way. */
  lemma CreatorCanCancel(s: State, ev: Event, evs: seq<Event>, sid: nat)
    requires Reachable(s) && Enabled(s, ev) && ev.SingleInsert? && Run(Apply(s, ev), evs)
    requires var s' := After(Apply(s, ev), evs);
             && ev.id in s'.table && s'.table[ev.id].status == Pending && sid !in s'.sessions && Unlocked(s', sid, ev.id)
    ensures var s' := After(Apply(s, ev), evs);
            var cancel := [CancelSelect(sid, ev.id, ev.user), CancelWrite(sid), CancelFinish(sid)];
            && Run(s', cancel)
            && After(s', cancel).sessions[sid].pc == Finished
            && ev.id in After(s', cancel).table && After(s', cancel).table[ev.id].status == Canceled
  {
    CreatorOwns(s, ev, evs);
    SerialCancel(After(Apply(s, ev), evs), sid, ev.id, ev.user);
  }
}
