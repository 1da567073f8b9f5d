/**
 Messages moving through the declared topology (services/rabbitmq.py). The broker expires a
 queue only at its head. Workers are the environment: they take a message from the task queue
 and acknowledge it, republish it to a delay queue, or reject it.
 */
module RetryFlow {
  import opened Wrappers
  import opened RabbitTopology
  import Runs

  type Message = nat

  /** `at` is when the message entered the queue, in milliseconds. */
  datatype Entry = Entry(message: Message, at: int)

  // ---- expiry at the head only ----

  /** What is left of a queue of deadlines after the broker has expired its head as often as it can. */
  function HeadExpired(deadlines: seq<int>, now: int): seq<int> {
    if deadlines == [] || deadlines[0] > now then deadlines else HeadExpired(deadlines[1..], now)
  }

  /** What would be left if every overdue message could leave, wherever it stands. */
  function NotOverdue(deadlines: seq<int>, now: int): seq<int> {
    if deadlines == [] then []
    else (if deadlines[0] > now then [deadlines[0]] else []) + NotOverdue(deadlines[1..], now)
  }

  ghost predicate Ascending(deadlines: seq<int>) {
    forall i, j :: 0 <= i < j < |deadlines| ==> deadlines[i] <= deadlines[j]
  }

  lemma {:induction false} NoneOverdue(deadlines: seq<int>, now: int)
    requires forall i :: 0 <= i < |deadlines| ==> deadlines[i] > now
    ensures NotOverdue(deadlines, now) == deadlines
  {
    if deadlines == [] {
    } else {
      NoneOverdue(deadlines[1..], now);
    }
  }

  lemma {:induction false} AscendingNeverBlocks(deadlines: seq<int>, now: int)
    requires Ascending(deadlines)
    ensures HeadExpired(deadlines, now) == NotOverdue(deadlines, now)
  {
    if deadlines == [] {
    } else {
      if deadlines[0] > now {
        NoneOverdue(deadlines, now);
      } else {
        AscendingNeverBlocks(deadlines[1..], now);
      }
    }
  }

  lemma {:induction false} NotOverdueShorter(deadlines: seq<int>, now: int, i: nat)
    requires i < |deadlines| && deadlines[i] <= now
    ensures |NotOverdue(deadlines, now)| < |deadlines|
    decreases |deadlines|
  {
    NotOverdueAtMost(deadlines[1..], now);
    if i == 0 {
    } else {
      NotOverdueShorter(deadlines[1..], now, i - 1);
    }
  }

  lemma {:induction false} NotOverdueAtMost(deadlines: seq<int>, now: int)
    ensures |NotOverdue(deadlines, now)| <= |deadlines|
  {
    if deadlines == [] {
    } else {
      NotOverdueAtMost(deadlines[1..], now);
    }
  }

  lemma {:induction false} HeadExpiredSuffix(deadlines: seq<int>, k: nat, now: int)
    requires k <= |deadlines| && forall i :: 0 <= i < k ==> deadlines[i] <= now
    ensures HeadExpired(deadlines, now) == HeadExpired(deadlines[k..], now)
    decreases k
  {
    if k > 0 {
      HeadExpiredSuffix(deadlines[1..], k - 1, now);
      assert deadlines[1..][k - 1..] == deadlines[k..];
    } else {
      assert deadlines[0..] == deadlines;
    }
  }

  lemma {:induction false} NotOverdueSuffix(deadlines: seq<int>, k: nat, now: int)
    requires k <= |deadlines| && forall i :: 0 <= i < k ==> deadlines[i] <= now
    ensures NotOverdue(deadlines, now) == NotOverdue(deadlines[k..], now)
    decreases k
  {
    if k > 0 {
      NotOverdueSuffix(deadlines[1..], k - 1, now);
      assert deadlines[1..][k - 1..] == deadlines[k..];
    } else {
      assert deadlines[0..] == deadlines;
    }
  }

  /** Behind a first message not yet due, an overdue one is held up. */
  lemma HeldUp(deadlines: seq<int>, now: int, i: nat)
    requires i < |deadlines| && deadlines[0] > now >= deadlines[i]
    ensures HeadExpired(deadlines, now) != NotOverdue(deadlines, now)
  {
    NotOverdueShorter(deadlines, now, i);
  }

  /** A later message due earlier is held up at the moment it falls due. */
  lemma DescentBlocks(deadlines: seq<int>, i: nat, j: nat)
    requires i < j < |deadlines| && deadlines[i] > deadlines[j]
    ensures HeadExpired(deadlines, deadlines[j]) != NotOverdue(deadlines, deadlines[j])
  {
    var now := deadlines[j];
    var k := FirstNotDue(deadlines, now, i);
    HeadExpiredSuffix(deadlines, k, now);
    NotOverdueSuffix(deadlines, k, now);
    HeldUp(deadlines[k..], now, j - k);
  }

  lemma FirstNotDue(deadlines: seq<int>, now: int, i: nat) returns (k: nat)
    requires i < |deadlines| && deadlines[i] > now
    ensures k <= i && deadlines[k] > now && forall l :: 0 <= l < k ==> deadlines[l] <= now
  {
    k := 0;
    while deadlines[k] <= now
      invariant k <= i && forall l :: 0 <= l < k ==> deadlines[l] <= now
      decreases i - k
    {
      k := k + 1;
    }
  }

  /** Head-only expiry removes exactly the overdue messages, at every instant, iff deadlines ascend. */
  lemma NoHeadOfLineBlockingIff(deadlines: seq<int>)
    ensures (forall now :: HeadExpired(deadlines, now) == NotOverdue(deadlines, now)) <==> Ascending(deadlines)
  {
    if Ascending(deadlines) {
      forall now ensures HeadExpired(deadlines, now) == NotOverdue(deadlines, now) {
        AscendingNeverBlocks(deadlines, now);
      }
    } else {
      var i, j :| 0 <= i < j < |deadlines| && deadlines[i] > deadlines[j];
      DescentBlocks(deadlines, i, j);
    }
  }

  // ---- the flow ----

  type Queues = map<string, seq<Entry>>

  /** `broker` is what start-up left; `published`, `done`, `rejected` and `lost` are the books; `held` is with workers. */
  datatype State = State(
    broker: Topology,
    now: int,
    queues: Queues,
    held: multiset<Message>,
    published: multiset<Message>,
    done: multiset<Message>,
    rejected: multiset<Message>,
    lost: multiset<Message>)

  datatype Event =
    | Tick(milliseconds: nat)
    | Publish(message: Message)
    | Take
    | Ack(message: Message)
    | Retry(message: Message, level: nat)
    | Reject(message: Message)
    | Expire(level: nat)

  /** After start-up on the broker `t`, all queues empty. */
  ghost function Init(t: Topology): State {
    State(Completed(t), 0, map name | name in Completed(t).queues :: [],
          multiset{}, multiset{}, multiset{}, multiset{}, multiset{})
  }

  ghost function Level(level: nat): string
    requires level < |RETRY_QUEUES|
  {
    RETRY_QUEUES[level].name
  }

  /** A copy to every queue the exchange routes to; a message routed nowhere is dropped. */
  ghost function Deliver(s: State, route: set<string>, message: Message): State {
    if route == {} then s.(lost := s.lost + multiset{message})
    else s.(queues := map name | name in s.queues ::
                        if name in route then s.queues[name] + [Entry(message, s.now)] else s.queues[name])
  }

  /** The queue's declared time to live is over for this entry; without one it never is. */
  ghost predicate Expirable(b: Topology, queue: string, e: Entry, now: int) {
    queue in b.queues && b.queues[queue].ttl.Some? && e.at + b.queues[queue].ttl.value <= now
  }

  ghost predicate Enabled(s: State, ev: Event) {
    match ev
    case Tick(_) => true
    case Publish(_) => true
    case Take => TASK_QUEUE in s.queues && s.queues[TASK_QUEUE] != []
    case Ack(m) => m in s.held
    case Retry(m, level) => m in s.held && level < |RETRY_QUEUES|
    case Reject(m) => m in s.held
    case Expire(level) =>
      && level < |RETRY_QUEUES| && Level(level) in s.queues && s.queues[Level(level)] != []
      && Expirable(s.broker, Level(level), s.queues[Level(level)][0], s.now)
  }

  ghost function Step(s: State, ev: Event): State
    requires Enabled(s, ev)
  {
    match ev
    case Tick(milliseconds) => s.(now := s.now + milliseconds)
    case Publish(m) =>
      Deliver(s.(published := s.published + multiset{m}), Route(s.broker, TASK_EXCHANGE, TASK_QUEUE), m)
    case Take =>
      var q := s.queues[TASK_QUEUE];
      s.(queues := s.queues[TASK_QUEUE := q[1..]], held := s.held + multiset{q[0].message})
    case Ack(m) => s.(held := s.held - multiset{m}, done := s.done + multiset{m})
    case Retry(m, level) =>
      Deliver(s.(held := s.held - multiset{m}), Route(s.broker, DLX_EXCHANGE, Level(level)), m)
    case Reject(m) => Deliver(Refused(s, m), DeadLetterRoute(s.broker, TASK_QUEUE), m)
    case Expire(level) =>
      var q := s.queues[Level(level)];
      Deliver(s.(queues := s.queues[Level(level) := q[1..]]), DeadLetterRoute(s.broker, Level(level)), q[0].message)
  }

  function Refused(s: State, m: Message): State {
    s.(held := s.held - multiset{m}, rejected := s.rejected + multiset{m})
  }

  ghost predicate Run(s: State, evs: seq<Event>) {
    Runs.Run(Step, s, evs)
  }

  ghost function After(s: State, evs: seq<Event>): State
    requires Run(s, evs)
  {
    Runs.After(Step, s, evs)
  }

  lemma Last(s: State, evs: seq<Event>)
    requires Run(s, evs) && evs != []
    ensures var n := |evs| - 1;
            && Run(s, evs[..n]) && Enabled(After(s, evs[..n]), evs[n])
            && After(s, evs) == Step(After(s, evs[..n]), evs[n])
  {
    Runs.LastStep(Step, s, evs);
  }

  lemma Extend(s: State, evs: seq<Event>, ev: Event)
    requires Run(s, evs) && Enabled(After(s, evs), ev)
    ensures Run(s, evs + [ev]) && After(s, evs + [ev]) == Step(After(s, evs), ev)
  {
    assert Step.requires(After(s, evs), ev);
    Runs.OneMore(Step, s, evs, ev);
  }

  ghost predicate Reachable(t: Topology, s: State) {
    exists evs :: Run(Init(t), evs) && After(Init(t), evs) == s
  }

  // ---- brokers shared with others ----

  /** Others bind nothing else to the keys in use, and at most one queue to the key of rejected messages. */
  ghost predicate LeftAlone(t: Topology) {
    && Route(t, TASK_EXCHANGE, TASK_QUEUE) <= {TASK_QUEUE}
    && Route(t, DLX_EXCHANGE, TASK_QUEUE) <= {TASK_QUEUE}
    && (forall level :: 0 <= level < |RETRY_QUEUES| ==> Route(t, DLX_EXCHANGE, Level(level)) <= {Level(level)})
    && (Route(t, DLX_EXCHANGE, REJECT_KEY) == {} ||
        exists q :: q in t.queues && Route(t, DLX_EXCHANGE, REJECT_KEY) == {q})
  }

  lemma NewBrokerLeftAlone()
    ensures LeftAlone(EMPTY)
  {
  }

  ghost predicate LevelReady(b: Topology, level: nat)
    requires level < |RETRY_QUEUES|
  {
    && Level(level) in b.queues && b.queues[Level(level)].ttl == Some(Delay(level))
    && Route(b, DLX_EXCHANGE, Level(level)) == {Level(level)}
    && DeadLetterRoute(b, Level(level)) == {TASK_QUEUE}
  }

  /** Every key in use leads to one queue, except that rejected messages may go nowhere. */
  ghost predicate Ready(b: Topology) {
    && TASK_QUEUE in b.queues && Route(b, TASK_EXCHANGE, TASK_QUEUE) == {TASK_QUEUE}
    && (forall level :: 0 <= level < |RETRY_QUEUES| ==> LevelReady(b, level))
    && (DeadLetterRoute(b, TASK_QUEUE) == {} || exists q :: q in b.queues && DeadLetterRoute(b, TASK_QUEUE) == {q})
  }

  lemma LevelBecomesReady(t: Topology, level: nat)
    requires LeftAlone(t) && level < |RETRY_QUEUES|
    ensures LevelReady(Completed(t), level)
  {
    DelayQueueRoute(t, level);
    DelayOfLevel(level);
    Routes(t, DLX_EXCHANGE, Level(level));
    assert RetryName(Level(level));
    assert DLX_EXCHANGE != TASK_EXCHANGE by { NamesDistinct(); }
  }

  lemma StartUpMakesReady(t: Topology)
    requires LeftAlone(t)
    ensures Ready(Completed(t))
  {
    Routes(t, TASK_EXCHANGE, TASK_QUEUE);
    RejectRoute(t);
    forall level | 0 <= level < |RETRY_QUEUES| ensures LevelReady(Completed(t), level) {
      LevelBecomesReady(t, level);
    }
    forall q | q in t.queues ensures q in Completed(t).queues {
    }
  }

  // ---- where the messages are ----

  function MessagesIn(q: seq<Entry>): multiset<Message> {
    if q == [] then multiset{} else multiset{q[0].message} + MessagesIn(q[1..])
  }

  /** All messages in the named queues. */
  ghost function Queued(queues: Queues, names: seq<string>): multiset<Message>
    requires forall name :: name in names ==> name in queues
  {
    if names == [] then multiset{}
    else MessagesIn(queues[names[0]]) + Queued(queues, names[1..])
  }

  lemma {:induction false} MessagesAppend(q: seq<Entry>, e: Entry)
    ensures MessagesIn(q + [e]) == MessagesIn(q) + multiset{e.message}
  {
    if q == [] {
      assert q + [e] == [e];
      assert MessagesIn([e][1..]) == multiset{};
    } else {
      MessagesAppend(q[1..], e);
      assert (q + [e])[1..] == q[1..] + [e];
    }
  }

  ghost predicate NoRepeats(names: seq<string>) {
    forall i, j :: 0 <= i < j < |names| ==> names[i] != names[j]
  }

  lemma {:induction false} QueuedOther(queues: Queues, names: seq<string>, name: string, q: seq<Entry>)
    requires name !in names && forall n :: n in names ==> n in queues
    ensures Queued(queues[name := q], names) == Queued(queues, names)
  {
    if names == [] {
    } else {
      QueuedOther(queues, names[1..], name, q);
    }
  }

  /** Changing one queue changes the total by that queue's change. */
  lemma {:induction false} QueuedUpdate(queues: Queues, names: seq<string>, name: string, q: seq<Entry>)
    requires NoRepeats(names) && name in names && forall n :: n in names ==> n in queues
    ensures Queued(queues[name := q], names) + MessagesIn(queues[name]) == Queued(queues, names) + MessagesIn(q)
  {
    var rest := names[1..];
    assert forall i :: 0 <= i < |rest| ==> rest[i] == names[i + 1];
    if names[0] == name {
      QueuedOther(queues, rest, name, q);
    } else {
      QueuedUpdate(queues, rest, name, q);
      AddToBoth(MessagesIn(queues[names[0]]), Queued(queues[name := q], rest), MessagesIn(queues[name]),
                Queued(queues, rest), MessagesIn(q));
    }
  }

  lemma AddToBoth(a: multiset<Message>, b: multiset<Message>, c: multiset<Message>, d: multiset<Message>, e: multiset<Message>)
    requires b + c == d + e
    ensures a + b + c == a + d + e
  {
    assert a + b + c == a + (b + c);
    assert a + d + e == a + (d + e);
  }

  /** From the totals before and after one queue grows or shrinks by one message. */
  lemma OneMessageMore(more: multiset<Message>, less: multiset<Message>, rest: multiset<Message>, m: Message)
    requires more + rest == less + (rest + multiset{m})
    ensures more == less + multiset{m}
  {
    forall x ensures more[x] == (less + multiset{m})[x] {
      assert (more + rest)[x] == (less + (rest + multiset{m}))[x];
    }
  }

  /** `names` lists the declared queues. */
  ghost predicate Covering(names: seq<string>, b: Topology) {
    NoRepeats(names) && forall name :: name in names <==> name in b.queues
  }

  lemma Listing(keys: set<string>) returns (names: seq<string>)
    ensures NoRepeats(names) && forall name :: name in names <==> name in keys
    decreases keys
  {
    if key :| key in keys {
      var rest := Listing(keys - {key});
      names := [key] + rest;
    } else {
      names := [];
    }
  }

  // ---- the invariant ----

  ghost predicate Shaped(s: State, names: seq<string>) {
    forall name :: name in s.queues <==> name in names
  }

  ghost predicate Arrivals(q: seq<Entry>, now: int) {
    && (forall i, j :: 0 <= i < j < |q| ==> q[i].at <= q[j].at)
    && (forall i :: 0 <= i < |q| ==> q[i].at <= now)
  }

  /** Queues are in order of arrival. */
  ghost predicate InOrder(s: State) {
    forall name {:trigger s.queues[name]} :: name in s.queues ==> Arrivals(s.queues[name], s.now)
  }

  ghost predicate Settled(s: State, names: seq<string>) {
    Ready(s.broker) && Covering(names, s.broker) && Shaped(s, names) && InOrder(s)
  }

  ghost predicate Balanced(s: State, names: seq<string>)
    requires Shaped(s, names)
  {
    Queued(s.queues, names) + s.held + s.done + s.lost == s.published
  }

  /** Only rejected messages are ever lost, and all of them if their key is bound to nothing. */
  ghost predicate LossesKnown(s: State) {
    s.lost == if DeadLetterRoute(s.broker, TASK_QUEUE) == {} then s.rejected else multiset{}
  }

  ghost predicate Inv(s: State, names: seq<string>) {
    Settled(s, names) && Balanced(s, names) && LossesKnown(s)
  }

  /** Replacing one queue by another in order of arrival. */
  lemma ReplaceQueue(s: State, names: seq<string>, name: string, q: seq<Entry>)
    requires NoRepeats(names) && Shaped(s, names) && InOrder(s) && name in names && Arrivals(q, s.now)
    ensures var s' := s.(queues := s.queues[name := q]);
            && Shaped(s', names) && InOrder(s')
            && Queued(s'.queues, names) + MessagesIn(s.queues[name]) == Queued(s.queues, names) + MessagesIn(q)
  {
    QueuedUpdate(s.queues, names, name, q);
  }

  function Appended(s: State, name: string, m: Message): State
    requires name in s.queues
  {
    s.(queues := s.queues[name := s.queues[name] + [Entry(m, s.now)]])
  }

  lemma DeliverIsAppend(s: State, name: string, m: Message)
    requires name in s.queues
    ensures Deliver(s, {name}, m) == Appended(s, name, m)
  {
    assert Deliver(s, {name}, m).queues == Appended(s, name, m).queues;
  }

  /** Delivery to exactly one queue is an append to it. */
  lemma DeliverOne(s: State, names: seq<string>, name: string, m: Message)
    requires NoRepeats(names) && Shaped(s, names) && name in names && InOrder(s)
    ensures Deliver(s, {name}, m) == Appended(s, name, m)
    ensures var s' := Appended(s, name, m);
            && Shaped(s', names) && InOrder(s')
            && Queued(s'.queues, names) == Queued(s.queues, names) + multiset{m}
  {
    DeliverIsAppend(s, name, m);
    AppendReplaces(s, names, name, m);
    OneMessageMore(Queued(Appended(s, name, m).queues, names), Queued(s.queues, names), MessagesIn(s.queues[name]), m);
  }

  lemma AppendReplaces(s: State, names: seq<string>, name: string, m: Message)
    requires NoRepeats(names) && Shaped(s, names) && name in names && InOrder(s)
    ensures var s' := Appended(s, name, m);
            && Shaped(s', names) && InOrder(s')
            && Queued(s'.queues, names) + MessagesIn(s.queues[name])
               == Queued(s.queues, names) + (MessagesIn(s.queues[name]) + multiset{m})
  {
    MessagesAppend(s.queues[name], Entry(m, s.now));
    assert Arrivals(s.queues[name], s.now);
    ReplaceQueue(s, names, name, s.queues[name] + [Entry(m, s.now)]);
  }

  function Beheaded(s: State, name: string): State
    requires name in s.queues && s.queues[name] != []
  {
    s.(queues := s.queues[name := s.queues[name][1..]])
  }

  /** Removing the head of one queue. */
  lemma RemoveHead(s: State, names: seq<string>, name: string)
    requires NoRepeats(names) && Shaped(s, names) && name in names && s.queues[name] != [] && InOrder(s)
    ensures var s' := Beheaded(s, name);
            && Shaped(s', names) && InOrder(s')
            && Queued(s.queues, names) == Queued(s'.queues, names) + multiset{s.queues[name][0].message}
  {
    assert Arrivals(s.queues[name], s.now);
    ReplaceQueue(s, names, name, s.queues[name][1..]);
    var q := s.queues[name];
    assert MessagesIn(q) == MessagesIn(q[1..]) + multiset{q[0].message};
    OneMessageMore(Queued(s.queues, names), Queued(Beheaded(s, name).queues, names), MessagesIn(q[1..]), q[0].message);
  }

  lemma PublishStep(s: State, names: seq<string>, m: Message)
    requires Inv(s, names)
    ensures Inv(Step(s, Publish(m)), names)
  {
    DeliverOne(s.(published := s.published + multiset{m}), names, TASK_QUEUE, m);
  }

  lemma TakeStep(s: State, names: seq<string>)
    requires Inv(s, names) && Enabled(s, Take)
    ensures Inv(Step(s, Take), names)
  {
    RemoveHead(s, names, TASK_QUEUE);
  }

  lemma RetryStepKeeps(s: State, names: seq<string>, m: Message, level: nat)
    requires Inv(s, names) && Enabled(s, Retry(m, level))
    ensures Inv(Step(s, Retry(m, level)), names)
  {
    assert LevelReady(s.broker, level);
    DeliverOne(s.(held := s.held - multiset{m}), names, Level(level), m);
  }

  lemma RejectStep(s: State, names: seq<string>, m: Message)
    requires Inv(s, names) && Enabled(s, Reject(m))
    ensures Inv(Step(s, Reject(m)), names)
  {
    var route := DeadLetterRoute(s.broker, TASK_QUEUE);
    if route != {} {
      var q :| q in s.broker.queues && route == {q};
      RejectIntoQueue(s, names, m, q);
    }
  }

  lemma RejectIntoQueue(s: State, names: seq<string>, m: Message, q: string)
    requires Inv(s, names) && m in s.held && q in names && DeadLetterRoute(s.broker, TASK_QUEUE) == {q}
    ensures Inv(Deliver(Refused(s, m), {q}, m), names)
  {
    DeliverOne(Refused(s, m), names, q, m);
  }

  lemma ExpireStep(s: State, names: seq<string>, level: nat)
    requires Inv(s, names) && Enabled(s, Expire(level))
    ensures TASK_QUEUE in s.queues
    ensures Step(s, Expire(level)) == Appended(Beheaded(s, Level(level)), TASK_QUEUE, s.queues[Level(level)][0].message)
    ensures Inv(Step(s, Expire(level)), names)
  {
    assert LevelReady(s.broker, level);
    var name := Level(level);
    RemoveHead(s, names, name);
    DeliverOne(Beheaded(s, name), names, TASK_QUEUE, s.queues[name][0].message);
  }

  lemma AckStep(s: State, names: seq<string>, m: Message)
    requires Inv(s, names) && Enabled(s, Ack(m))
    ensures Inv(Step(s, Ack(m)), names)
  {
  }

  lemma TickStep(s: State, names: seq<string>, ev: Event)
    requires Inv(s, names) && ev.Tick?
    ensures Inv(Step(s, ev), names)
  {
  }

  lemma StepKeepsInv(s: State, names: seq<string>, ev: Event)
    requires Inv(s, names) && Enabled(s, ev)
    ensures Inv(Step(s, ev), names) && Step(s, ev).broker == s.broker
  {
    match ev
    case Publish(m) => PublishStep(s, names, m);
    case Take => TakeStep(s, names);
    case Retry(m, level) => RetryStepKeeps(s, names, m, level);
    case Reject(m) => RejectStep(s, names, m);
    case Expire(level) => ExpireStep(s, names, level);
    case Ack(m) => AckStep(s, names, m);
    case Tick(_) => TickStep(s, names, ev);
  }

  lemma {:induction false} RunKeepsInv(s: State, evs: seq<Event>, names: seq<string>)
    requires Inv(s, names) && Run(s, evs)
    ensures Inv(After(s, evs), names) && After(s, evs).broker == s.broker
    decreases |evs|
  {
    if evs == [] {
    } else {
      var n := |evs| - 1;
      Last(s, evs);
      RunKeepsInv(s, evs[..n], names);
      StepKeepsInv(After(s, evs[..n]), names, evs[n]);
    }
  }

  lemma {:induction false} NothingQueued(queues: Queues, names: seq<string>)
    requires forall name :: name in names ==> name in queues && queues[name] == []
    ensures Queued(queues, names) == multiset{}
  {
    if names == [] {
    } else {
      NothingQueued(queues, names[1..]);
    }
  }

  lemma ReachableInv(t: Topology, s: State, names: seq<string>)
    requires LeftAlone(t) && Reachable(t, s) && Covering(names, Completed(t))
    ensures Inv(s, names) && s.broker == Completed(t)
  {
    var evs :| Run(Init(t), evs) && After(Init(t), evs) == s;
    StartUpMakesReady(t);
    NothingQueued(Init(t).queues, names);
    RunKeepsInv(Init(t), evs, names);
  }

  // ---- what follows in every run ----

  /** Every published message is in exactly one place; it can be lost only by a reject whose key nobody bound. */
  lemma MessagesConserved(t: Topology, s: State, names: seq<string>)
    requires LeftAlone(t) && Reachable(t, s) && Covering(names, Completed(t))
    ensures forall name :: name in names ==> name in s.queues
    ensures Queued(s.queues, names) + s.held + s.done + s.lost == s.published
    ensures s.lost == if Route(t, DLX_EXCHANGE, REJECT_KEY) == {} then s.rejected else multiset{}
  {
    ReachableInv(t, s, names);
    RejectRoute(t);
  }

  /** On a broker of the service's own every published message is queued, held, done or rejected. */
  lemma ConservedOnNewBroker(s: State, names: seq<string>)
    requires Reachable(EMPTY, s) && Covering(names, Completed(EMPTY))
    ensures forall name :: name in names ==> name in s.queues
    ensures Queued(s.queues, names) + s.held + s.done + s.rejected == s.published
  {
    NewBrokerLeftAlone();
    MessagesConserved(EMPTY, s, names);
  }

  /** What becomes of a rejected message: the end of the queue its key was bound to before start-up, else nothing. */
  lemma RejectedMessage(t: Topology, s: State, m: Message)
    requires LeftAlone(t) && Reachable(t, s) && Enabled(s, Reject(m))
    ensures forall q :: Route(t, DLX_EXCHANGE, REJECT_KEY) == {q} ==>
              q in s.queues && Step(s, Reject(m)) == Appended(Refused(s, m), q, m)
    ensures Route(t, DLX_EXCHANGE, REJECT_KEY) == {} ==>
              Step(s, Reject(m)) == Refused(s, m).(lost := s.lost + multiset{m})
  {
    var names := Listing(Completed(t).queues.Keys);
    ReachableInv(t, s, names);
    RejectRoute(t);
    forall q | Route(t, DLX_EXCHANGE, REJECT_KEY) == {q}
      ensures q in s.queues && Step(s, Reject(m)) == Appended(Refused(s, m), q, m)
    {
      var other :| other in t.queues && Route(t, DLX_EXCHANGE, REJECT_KEY) == {other};
      assert q in {other};
      DeliverIsAppend(Refused(s, m), q, m);
    }
  }

  /** A new task goes to the end of the task queue, and workers take its head. */
  lemma TasksFirstInFirstOut(t: Topology, s: State, m: Message)
    requires LeftAlone(t) && Reachable(t, s)
    ensures TASK_QUEUE in s.queues
    ensures Step(s, Publish(m)) == s.(published := s.published + multiset{m},
                                      queues := s.queues[TASK_QUEUE := s.queues[TASK_QUEUE] + [Entry(m, s.now)]])
    ensures Enabled(s, Take) <==> s.queues[TASK_QUEUE] != []
    ensures Enabled(s, Take) ==>
              Step(s, Take) == s.(held := s.held + multiset{s.queues[TASK_QUEUE][0].message},
                                  queues := s.queues[TASK_QUEUE := s.queues[TASK_QUEUE][1..]])
  {
    var names := Listing(Completed(t).queues.Keys);
    ReachableInv(t, s, names);
    DeliverIsAppend(s.(published := s.published + multiset{m}), TASK_QUEUE, m);
  }

  /** A retried message goes to the end of the delay queue of its level. */
  lemma RetriedMessage(t: Topology, s: State, m: Message, level: nat)
    requires LeftAlone(t) && Reachable(t, s) && Enabled(s, Retry(m, level))
    ensures Level(level) in s.queues
    ensures Step(s, Retry(m, level)) == s.(held := s.held - multiset{m},
              queues := s.queues[Level(level) := s.queues[Level(level)] + [Entry(m, s.now)]])
  {
    var names := Listing(Completed(t).queues.Keys);
    ReachableInv(t, s, names);
    assert LevelReady(s.broker, level);
    DeliverIsAppend(s.(held := s.held - multiset{m}), Level(level), m);
  }

  lemma ExpireMoves(s: State, names: seq<string>, level: nat)
    requires Inv(s, names) && Enabled(s, Expire(level))
    ensures TASK_QUEUE in s.queues && Level(level) != TASK_QUEUE
    ensures var name := Level(level);
            var q := s.queues[name];
            Step(s, Expire(level)) == s.(queues := s.queues[name := q[1..]]
                                                          [TASK_QUEUE := s.queues[TASK_QUEUE] + [Entry(q[0].message, s.now)]])
  {
    ExpireStep(s, names, level);
    assert Level(level) != TASK_QUEUE by { NamesDistinct(); }
  }

  /**
   An expiry happens exactly when the head of its delay queue has waited the queue's delay; it takes
   the head to the end of the task queue and touches nothing else.
   */
  lemma ExpiryReturnsToTaskQueue(t: Topology, s: State, level: nat)
    requires LeftAlone(t) && Reachable(t, s) && level < |RETRY_QUEUES|
    requires Level(level) in s.queues && s.queues[Level(level)] != []
    ensures Enabled(s, Expire(level)) <==> s.queues[Level(level)][0].at + Delay(level) <= s.now
    ensures TASK_QUEUE in s.queues
    ensures var name := Level(level);
            var q := s.queues[name];
            Enabled(s, Expire(level)) ==>
              Step(s, Expire(level)) == s.(queues := s.queues[name := q[1..]]
                                                            [TASK_QUEUE := s.queues[TASK_QUEUE] + [Entry(q[0].message, s.now)]])
  {
    var names := Listing(Completed(t).queues.Keys);
    ReachableInv(t, s, names);
    ExpiryEnabled(s, level);
    if Enabled(s, Expire(level)) { ExpireMoves(s, names, level); }
  }

  lemma ExpiryEnabled(s: State, level: nat)
    requires Ready(s.broker) && level < |RETRY_QUEUES| && Level(level) in s.queues && s.queues[Level(level)] != []
    ensures Enabled(s, Expire(level)) <==> s.queues[Level(level)][0].at + Delay(level) <= s.now
  {
    assert LevelReady(s.broker, level);
  }

  // ---- expiring all that is due ----

  /** The entry has waited the delay of its level. */
  ghost predicate Due(e: Entry, level: nat, now: int) {
    e.at + Delay(level) <= now
  }

  function Expires(level: nat, k: nat): seq<Event> {
    seq(k, _ => Expire(level))
  }

  /** Entries as they arrive in another queue. */
  function Stamped(q: seq<Entry>, now: int): seq<Entry> {
    seq(|q|, i requires 0 <= i < |q| => Entry(q[i].message, now))
  }

  /** `k` heads of a delay queue moved to the task queue. */
  ghost function Moved(s: State, level: nat, k: nat): State
    requires level < |RETRY_QUEUES| && Level(level) in s.queues && TASK_QUEUE in s.queues && k <= |s.queues[Level(level)]|
  {
    var q := s.queues[Level(level)];
    s.(queues := s.queues[Level(level) := q[k..]][TASK_QUEUE := s.queues[TASK_QUEUE] + Stamped(q[..k], s.now)])
  }

  lemma UpdatesOverwrite(m: Queues, a: string, x: seq<Entry>, y: seq<Entry>, b: string, u: seq<Entry>, v: seq<Entry>)
    requires a != b
    ensures m[a := x][b := u][a := y][b := v] == m[a := y][b := v]
  {
  }

  lemma MovedNone(s: State, level: nat)
    requires level < |RETRY_QUEUES| && Level(level) in s.queues && TASK_QUEUE in s.queues && Level(level) != TASK_QUEUE
    ensures Moved(s, level, 0) == s
  {
    var q, tasks := s.queues[Level(level)], s.queues[TASK_QUEUE];
    assert q[0..] == q && tasks + Stamped(q[..0], s.now) == tasks;
    assert s.queues[Level(level) := q][TASK_QUEUE := tasks] == s.queues;
  }

  lemma MovedOneMore(s: State, level: nat, k: nat)
    requires level < |RETRY_QUEUES| && Level(level) in s.queues && TASK_QUEUE in s.queues && k < |s.queues[Level(level)]|
    requires Level(level) != TASK_QUEUE
    ensures var q, s' := s.queues[Level(level)], Moved(s, level, k);
            && s'.queues[Level(level)] == q[k..] && q[k..][1..] == q[k + 1..]
            && Moved(s, level, k + 1).queues
               == s'.queues[Level(level) := q[k + 1..]][TASK_QUEUE := s'.queues[TASK_QUEUE] + [Entry(q[k].message, s.now)]]
  {
    var q, tasks := s.queues[Level(level)], s.queues[TASK_QUEUE];
    var before, now := tasks + Stamped(q[..k], s.now), tasks + Stamped(q[..k + 1], s.now);
    assert now == before + [Entry(q[k].message, s.now)];
    UpdatesOverwrite(s.queues, Level(level), q[k..], q[k + 1..], TASK_QUEUE, before, now);
  }

  lemma ExpireOneMore(s: State, names: seq<string>, level: nat, k: nat)
    requires level < |RETRY_QUEUES| && Level(level) in s.queues && TASK_QUEUE in s.queues && Level(level) != TASK_QUEUE
    requires k < |s.queues[Level(level)]| && Due(s.queues[Level(level)][k], level, s.now)
    requires Inv(Moved(s, level, k), names)
    ensures Enabled(Moved(s, level, k), Expire(level))
    ensures Step(Moved(s, level, k), Expire(level)) == Moved(s, level, k + 1)
  {
    MovedOneMore(s, level, k);
    assert s.queues[Level(level)][k..][0] == s.queues[Level(level)][k];
    assert LevelReady(s.broker, level);
    ExpireMoves(Moved(s, level, k), names, level);
  }

  lemma NextExpire(s: State, names: seq<string>, level: nat, k: nat)
    requires Inv(s, names)
    requires level < |RETRY_QUEUES| && Level(level) in s.queues && TASK_QUEUE in s.queues && Level(level) != TASK_QUEUE
    requires k < |s.queues[Level(level)]| && Due(s.queues[Level(level)][k], level, s.now)
    requires Run(s, Expires(level, k)) && After(s, Expires(level, k)) == Moved(s, level, k)
    ensures Run(s, Expires(level, k + 1)) && After(s, Expires(level, k + 1)) == Moved(s, level, k + 1)
  {
    RunKeepsInv(s, Expires(level, k), names);
    ExpireOneMore(s, names, level, k);
    ExpiresNext(level, k);
    Extend(s, Expires(level, k), Expire(level));
  }

  lemma ExpiresNext(level: nat, k: nat)
    ensures Expires(level, k + 1) == Expires(level, k) + [Expire(level)]
  {
  }

  lemma {:induction false} ExpireHeads(s: State, names: seq<string>, level: nat, k: nat)
    requires Inv(s, names) && level < |RETRY_QUEUES| && Level(level) in s.queues && TASK_QUEUE in s.queues
    requires Level(level) != TASK_QUEUE
    requires k <= |s.queues[Level(level)]| && forall i :: 0 <= i < k ==> Due(s.queues[Level(level)][i], level, s.now)
    ensures Run(s, Expires(level, k)) && After(s, Expires(level, k)) == Moved(s, level, k)
    decreases k
  {
    if k == 0 {
      MovedNone(s, level);
    } else {
      ExpireHeads(s, names, level, k - 1);
      assert Due(s.queues[Level(level)][k - 1], level, s.now);
      NextExpire(s, names, level, k - 1);
    }
  }

  ghost function Deadlines(q: seq<Entry>, level: nat): seq<int> {
    seq(|q|, i requires 0 <= i < |q| => q[i].at + Delay(level))
  }

  /** Where the first entry not yet due stands. */
  lemma DueEntries(q: seq<Entry>, level: nat, now: int) returns (k: nat)
    requires level < |RETRY_QUEUES| && Arrivals(q, now)
    ensures k <= |q|
    ensures forall i :: 0 <= i < |q| ==> (Due(q[i], level, now) <==> i < k)
  {
    k := 0;
    while k < |q| && Due(q[k], level, now)
      invariant k <= |q| && forall i :: 0 <= i < k ==> Due(q[i], level, now)
    {
      k := k + 1;
    }
  }

  /** The entries not yet due are what head-only expiry leaves, and what expiry anywhere would leave. */
  lemma NotDueIsLeft(q: seq<Entry>, level: nat, now: int, k: nat)
    requires level < |RETRY_QUEUES| && Arrivals(q, now) && k <= |q|
    requires forall i :: 0 <= i < |q| ==> (Due(q[i], level, now) <==> i < k)
    ensures Deadlines(q[k..], level) == HeadExpired(Deadlines(q, level), now)
    ensures Deadlines(q[k..], level) == NotOverdue(Deadlines(q, level), now)
  {
    var deadlines := Deadlines(q, level);
    forall i | 0 <= i < k ensures deadlines[i] <= now {
      assert Due(q[i], level, now);
    }
    HeadExpiredSuffix(deadlines, k, now);
    assert k < |q| ==> !Due(q[k], level, now);
    assert Deadlines(q[k..], level) == deadlines[k..];
    AscendingNeverBlocks(deadlines, now);
  }

  lemma ReachableQueue(t: Topology, s: State, level: nat) returns (names: seq<string>)
    requires LeftAlone(t) && Reachable(t, s) && level < |RETRY_QUEUES|
    ensures Inv(s, names) && Level(level) in s.queues && TASK_QUEUE in s.queues && Level(level) != TASK_QUEUE
    ensures Arrivals(s.queues[Level(level)], s.now) && LevelReady(s.broker, level)
  {
    names := Listing(Completed(t).queues.Keys);
    ReachableInv(t, s, names);
    assert LevelReady(s.broker, level);
    assert Level(level) != TASK_QUEUE by { NamesDistinct(); }
  }

  /**
   In every run, in every delay queue: expiring the head as long as one is due moves all overdue
   messages to the task queue, in order, and only those; those that may stay are exactly those that
   would stay if every overdue message could leave from wherever it stands.
   */
  lemma DelaysNeverBlock(t: Topology, s: State, level: nat) returns (k: nat)
    requires LeftAlone(t) && Reachable(t, s) && level < |RETRY_QUEUES|
    ensures Level(level) in s.queues && TASK_QUEUE in s.queues && k <= |s.queues[Level(level)]|
    ensures var q := s.queues[Level(level)];
            && (forall i :: 0 <= i < |q| ==> (q[i].at + Delay(level) <= s.now <==> i < k))
            && Run(s, Expires(level, k)) && After(s, Expires(level, k)) == Moved(s, level, k)
            && !Enabled(Moved(s, level, k), Expire(level))
            && Deadlines(q[k..], level) == HeadExpired(Deadlines(q, level), s.now)
            && Deadlines(q[k..], level) == NotOverdue(Deadlines(q, level), s.now)
  {
    var names := ReachableQueue(t, s, level);
    var q := s.queues[Level(level)];
    k := DueEntries(q, level, s.now);
    assert forall i :: 0 <= i < |q| ==> (Due(q[i], level, s.now) <==> q[i].at + Delay(level) <= s.now);
    ExpireHeads(s, names, level, k);
    NothingMoreToExpire(s, level, k);
    NotDueIsLeft(q, level, s.now, k);
  }

  lemma NothingMoreToExpire(s: State, level: nat, k: nat)
    requires level < |RETRY_QUEUES| && Level(level) in s.queues && TASK_QUEUE in s.queues && Level(level) != TASK_QUEUE
    requires k <= |s.queues[Level(level)]|
    requires LevelReady(s.broker, level)
    requires forall i :: k <= i < |s.queues[Level(level)]| ==> !Due(s.queues[Level(level)][i], level, s.now)
    ensures !Enabled(Moved(s, level, k), Expire(level))
  {
    var q := s.queues[Level(level)];
    if k < |q| { assert q[k..][0] == q[k]; }
  }

  lemma NoneDue(q: seq<Entry>, level: nat, now: int, i: nat)
    requires Arrivals(q, now) && i < |q| && !Due(q[0], level, now)
    ensures now < q[i].at + Delay(level)
  {
    assert q[0].at <= q[i].at;
  }

  /** Once the broker has nothing left to expire, no message waits past its delay. */
  lemma NobodyOverstays(t: Topology, s: State, level: nat, i: nat)
    requires LeftAlone(t) && Reachable(t, s) && level < |RETRY_QUEUES| && !Enabled(s, Expire(level))
    requires Level(level) in s.queues && i < |s.queues[Level(level)]|
    ensures s.now < s.queues[Level(level)][i].at + Delay(level)
  {
    var names := ReachableQueue(t, s, level);
    NoneDue(s.queues[Level(level)], level, s.now, i);
  }
}
