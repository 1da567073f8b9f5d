/**
 The exchanges, queues and bindings that start-up declares, and where a direct exchange then
 routes (services/rabbitmq.py; direct routing is section 3.1.3.1 of AMQP 0-9-1).
 */
module RabbitTopology {
  import opened Wrappers

  const TASK_EXCHANGE := "tasks.exchange"
  const TASK_QUEUE := "tasks.queue"
  const DLX_EXCHANGE := "tasks.dlx"
  const REJECT_KEY := "retry.1s"

  datatype RetryQueue = RetryQueue(name: string, ttl: nat)

  const RETRY_QUEUES: seq<RetryQueue> := [
    RetryQueue("tasks.retry.1s", 1000),
    RetryQueue("tasks.retry.2s", 2000),
    RetryQueue("tasks.retry.4s", 4000),
    RetryQueue("tasks.retry.8s", 8000),
    RetryQueue("tasks.retry.16s", 16000),
    RetryQueue("tasks.retry.32s", 32000),
    RetryQueue("tasks.retry.64s", 64000)
  ]

  datatype Kind = Direct | Fanout | Topic | Headers

  datatype QueueArgs = QueueArgs(ttl: Option<nat>, deadLetter: Option<(string, string)>)

  datatype Binding = Binding(exchange: string, key: string, queue: string)

  datatype Topology = Topology(exchanges: map<string, Kind>, queues: map<string, QueueArgs>, bindings: set<Binding>)

  const EMPTY := Topology(map[], map[], {})

  // ---- what the broker does with a declaration ----

  datatype Op =
    | DeclareExchange(name: string, kind: Kind)
    | DeclareQueue(name: string, args: QueueArgs)
    | Bind(binding: Binding)

  /** A redeclaration must repeat the first one; a binding needs both its ends. */
  predicate Accepts(t: Topology, op: Op) {
    match op
    case DeclareExchange(name, kind) => name in t.exchanges ==> t.exchanges[name] == kind
    case DeclareQueue(name, args) => name in t.queues ==> t.queues[name] == args
    case Bind(b) => b.exchange in t.exchanges && b.queue in t.queues
  }

  function Perform(t: Topology, op: Op): Topology {
    match op
    case DeclareExchange(name, kind) => t.(exchanges := t.exchanges[name := kind])
    case DeclareQueue(name, args) => t.(queues := t.queues[name := args])
    case Bind(b) => t.(bindings := t.bindings + {b})
  }

  /** Operations in order, up to the first the broker refuses. */
  function RunOps(t: Topology, ops: seq<Op>): (Topology, bool) {
    if ops == [] then (t, true)
    else
      var (before, ok) := RunOps(t, ops[..|ops| - 1]);
      var op := ops[|ops| - 1];
      if ok && Accepts(before, op) then (Perform(before, op), true) else (before, false)
  }

  // ---- start-up ----

  function MainArgs(): QueueArgs {
    QueueArgs(None, Some((DLX_EXCHANGE, REJECT_KEY)))
  }

  function RetryArgs(q: RetryQueue): QueueArgs {
    QueueArgs(Some(q.ttl), Some((DLX_EXCHANGE, TASK_QUEUE)))
  }

  function MainOps(): seq<Op> {
    [DeclareExchange(TASK_EXCHANGE, Direct),
     DeclareExchange(DLX_EXCHANGE, Direct),
     DeclareQueue(TASK_QUEUE, MainArgs()),
     Bind(Binding(TASK_EXCHANGE, TASK_QUEUE, TASK_QUEUE)),
     Bind(Binding(DLX_EXCHANGE, TASK_QUEUE, TASK_QUEUE))]
  }

  function RetryOps(qs: seq<RetryQueue>): seq<Op> {
    if qs == [] then []
    else
      var q := qs[|qs| - 1];
      RetryOps(qs[..|qs| - 1]) + [DeclareQueue(q.name, RetryArgs(q))] + [Bind(Binding(DLX_EXCHANGE, q.name, q.name))]
  }

  function SetupOps(): seq<Op> {
    MainOps() + RetryOps(RETRY_QUEUES)
  }

  /**
   A channel to the broker. After a refusal it is closed: the exception skips every later
   operation. `asked` lists the operations requested so far, from the topology `start`.
   */
  class Channel {
    ghost const start: Topology
    ghost var asked: seq<Op>
    var topology: Topology
    var open: bool

    ghost predicate Valid()
      reads this
    {
      (topology, open) == RunOps(start, asked)
    }

    constructor (t: Topology)
      ensures Valid() && start == t && asked == []
    {
      start, asked, topology, open := t, [], t, true;
    }

    method Do(op: Op)
      requires Valid()
      modifies this
      ensures Valid() && asked == old(asked) + [op]
    {
      open := open && Accepts(topology, op);
      if open {
        topology := Perform(topology, op);
      }
      RunOpsAppend(start, asked, op);
      asked := asked + [op];
    }
  }

  lemma RunOpsAppend(t: Topology, ops: seq<Op>, op: Op)
    ensures var (before, ok) := RunOps(t, ops);
            RunOps(t, ops + [op]) == if ok && Accepts(before, op) then (Perform(before, op), true) else (before, false)
  {
    assert (ops + [op])[..|ops|] == ops;
  }

  method DeclareMain(channel: Channel)
    requires channel.Valid()
    modifies channel
    ensures channel.Valid() && channel.asked == old(channel.asked) + MainOps()
  {
    channel.Do(DeclareExchange(TASK_EXCHANGE, Direct));
    channel.Do(DeclareExchange(DLX_EXCHANGE, Direct));
    channel.Do(DeclareQueue(TASK_QUEUE, MainArgs()));
    channel.Do(Bind(Binding(TASK_EXCHANGE, TASK_QUEUE, TASK_QUEUE)));
    channel.Do(Bind(Binding(DLX_EXCHANGE, TASK_QUEUE, TASK_QUEUE)));
  }

  /** setup_rabbitmq_with_retries on a new channel: the main queue, then one delay queue per level. */
  method Setup(channel: Channel)
    requires channel.Valid() && channel.asked == []
    modifies channel
    ensures channel.Valid() && channel.asked == SetupOps()
    ensures (channel.topology, channel.open) == RunOps(channel.start, SetupOps())
    ensures channel.open ==> Declared(channel.topology)
  {
    DeclareMain(channel);
    for j := 0 to |RETRY_QUEUES|
      invariant channel.Valid() && channel.asked == MainOps() + RetryOps(RETRY_QUEUES[..j])
    {
      var config := RETRY_QUEUES[j];
      channel.Do(DeclareQueue(config.name, RetryArgs(config)));
      channel.Do(Bind(Binding(DLX_EXCHANGE, config.name, config.name)));
      assert RETRY_QUEUES[..j + 1][..j] == RETRY_QUEUES[..j];
    }
    assert RETRY_QUEUES[..|RETRY_QUEUES|] == RETRY_QUEUES;
    SetupDeclares(channel.start);
  }

  // ---- what start-up is meant to build, whatever the order of operations ----

  function TargetExchanges(): map<string, Kind> {
    map[TASK_EXCHANGE := Direct, DLX_EXCHANGE := Direct]
  }

  function RetryTable(qs: seq<RetryQueue>): map<string, QueueArgs> {
    if qs == [] then map[]
    else RetryTable(qs[..|qs| - 1])[qs[|qs| - 1].name := RetryArgs(qs[|qs| - 1])]
  }

  function TargetQueues(): map<string, QueueArgs> {
    RetryTable(RETRY_QUEUES)[TASK_QUEUE := MainArgs()]
  }

  function RetryBindings(qs: seq<RetryQueue>): set<Binding> {
    set q | q in qs :: Binding(DLX_EXCHANGE, q.name, q.name)
  }

  function MainBindings(): set<Binding> {
    {Binding(TASK_EXCHANGE, TASK_QUEUE, TASK_QUEUE), Binding(DLX_EXCHANGE, TASK_QUEUE, TASK_QUEUE)}
  }

  function SetupBindings(): set<Binding> {
    MainBindings() + RetryBindings(RETRY_QUEUES)
  }

  /** The topology completed by everything start-up wants. */
  function Completed(t: Topology): Topology {
    Topology(t.exchanges + TargetExchanges(), t.queues + TargetQueues(),
             t.bindings + MainBindings() + RetryBindings(RETRY_QUEUES))
  }

  ghost predicate Agree<V(!new)>(have: map<string, V>, want: map<string, V>) {
    forall name :: name in have && name in want ==> have[name] == want[name]
  }

  /** Nothing already declared under a name start-up uses differs from what it will declare. */
  ghost predicate Compatible(t: Topology) {
    Agree(t.exchanges, TargetExchanges()) && Agree(t.queues, TargetQueues())
  }

  ghost predicate DistinctNames(qs: seq<RetryQueue>) {
    forall i, j :: 0 <= i < j < |qs| ==> qs[i].name != qs[j].name
  }

  lemma NamesDistinct()
    ensures DistinctNames(RETRY_QUEUES)
    ensures forall i :: 0 <= i < |RETRY_QUEUES| ==> RETRY_QUEUES[i].name != TASK_QUEUE
    ensures TASK_EXCHANGE != DLX_EXCHANGE
  {
    forall i | 0 <= i < |RETRY_QUEUES| ensures RETRY_QUEUES[i].name[6] == 'r' {
    }
    assert TASK_QUEUE[6] == 'q' && TASK_EXCHANGE[6] == 'e' && DLX_EXCHANGE[6] == 'd';
    forall i, j | 0 <= i < j < |RETRY_QUEUES| ensures RETRY_QUEUES[i].name != RETRY_QUEUES[j].name {
      assert RETRY_QUEUES[i].name[12..] != RETRY_QUEUES[j].name[12..];
    }
  }

  lemma {:induction false} RetryTableKeys(qs: seq<RetryQueue>)
    ensures forall name :: name in RetryTable(qs) <==> exists i :: 0 <= i < |qs| && qs[i].name == name
  {
    if qs == [] {
    } else {
      var n := |qs| - 1;
      RetryTableKeys(qs[..n]);
      assert forall i :: 0 <= i < n ==> qs[..n][i] == qs[i];
    }
  }

  lemma {:induction false} RetryTableEntry(qs: seq<RetryQueue>, i: nat)
    requires DistinctNames(qs) && i < |qs|
    ensures qs[i].name in RetryTable(qs) && RetryTable(qs)[qs[i].name] == RetryArgs(qs[i])
    decreases |qs|
  {
    var n := |qs| - 1;
    if i == n {
    } else {
      RetryTableEntry(qs[..n], i);
      assert qs[..n][i] == qs[i] && qs[i].name != qs[n].name;
    }
  }

  lemma RetryTableAt(qs: seq<RetryQueue>)
    requires DistinctNames(qs)
    ensures forall name :: name in RetryTable(qs) <==> exists i :: 0 <= i < |qs| && qs[i].name == name
    ensures forall i :: 0 <= i < |qs| ==> RetryTable(qs)[qs[i].name] == RetryArgs(qs[i])
  {
    RetryTableKeys(qs);
    forall i | 0 <= i < |qs| ensures qs[i].name in RetryTable(qs) && RetryTable(qs)[qs[i].name] == RetryArgs(qs[i]) {
      RetryTableEntry(qs, i);
    }
  }

  // ---- the same, name by name ----

  ghost predicate DelayQueue(p: Topology, name: string, milliseconds: nat) {
    && name in p.queues && p.queues[name] == QueueArgs(Some(milliseconds), Some(("tasks.dlx", "tasks.queue")))
    && Binding("tasks.dlx", name, name) in p.bindings
  }

  ghost predicate DirectExchange(p: Topology, name: string) {
    name in p.exchanges && p.exchanges[name] == Direct
  }

  /** Both exchanges, the task queue and the seven delay queues, with their arguments and bindings. */
  ghost predicate Declared(p: Topology) {
    && DirectExchange(p, "tasks.exchange") && DirectExchange(p, "tasks.dlx")
    && "tasks.queue" in p.queues && p.queues["tasks.queue"] == QueueArgs(None, Some(("tasks.dlx", "retry.1s")))
    && Binding("tasks.exchange", "tasks.queue", "tasks.queue") in p.bindings
    && Binding("tasks.dlx", "tasks.queue", "tasks.queue") in p.bindings
    && DelayQueue(p, "tasks.retry.1s", 1000) && DelayQueue(p, "tasks.retry.2s", 2000)
    && DelayQueue(p, "tasks.retry.4s", 4000) && DelayQueue(p, "tasks.retry.8s", 8000)
    && DelayQueue(p, "tasks.retry.16s", 16000) && DelayQueue(p, "tasks.retry.32s", 32000)
    && DelayQueue(p, "tasks.retry.64s", 64000)
  }

  lemma DelayQueueCompleted(t: Topology, i: nat)
    requires i < |RETRY_QUEUES|
    ensures DelayQueue(Completed(t), RETRY_QUEUES[i].name, RETRY_QUEUES[i].ttl)
  {
    NamesDistinct();
    RetryTableEntry(RETRY_QUEUES, i);
    assert RETRY_QUEUES[i] in RETRY_QUEUES;
    assert Binding(DLX_EXCHANGE, RETRY_QUEUES[i].name, RETRY_QUEUES[i].name) in RetryBindings(RETRY_QUEUES);
  }

  lemma MainCompleted(t: Topology)
    ensures var p := Completed(t);
            && DirectExchange(p, "tasks.exchange") && DirectExchange(p, "tasks.dlx")
            && "tasks.queue" in p.queues && p.queues["tasks.queue"] == QueueArgs(None, Some(("tasks.dlx", "retry.1s")))
            && Binding("tasks.exchange", "tasks.queue", "tasks.queue") in p.bindings
            && Binding("tasks.dlx", "tasks.queue", "tasks.queue") in p.bindings
  {
    NamesDistinct();
  }

  lemma CompletedIsDeclared(t: Topology)
    ensures Declared(Completed(t))
  {
    MainCompleted(t);
    DelayQueueCompleted(t, 0);
    DelayQueueCompleted(t, 1);
    DelayQueueCompleted(t, 2);
    DelayQueueCompleted(t, 3);
    DelayQueueCompleted(t, 4);
    DelayQueueCompleted(t, 5);
    DelayQueueCompleted(t, 6);
  }

  // ---- start-up builds exactly that ----

  lemma {:induction false} RunOpsStops(t: Topology, ops: seq<Op>, more: seq<Op>)
    requires !RunOps(t, ops).1
    ensures RunOps(t, ops + more) == RunOps(t, ops)
    decreases |more|
  {
    if more == [] {
      assert ops + more == ops;
    } else {
      var n := |more| - 1;
      RunOpsStops(t, ops, more[..n]);
      RunOpsAppend(t, ops + more[..n], more[n]);
      assert ops + more == ops + more[..n] + [more[n]];
    }
  }

  /** The topology with the main queue in place. */
  function WithMain(t: Topology): Topology {
    Topology(t.exchanges + TargetExchanges(), t.queues[TASK_QUEUE := MainArgs()], t.bindings + MainBindings())
  }

  ghost predicate MainCompatible(t: Topology) {
    Agree(t.exchanges, TargetExchanges()) && (TASK_QUEUE in t.queues ==> t.queues[TASK_QUEUE] == MainArgs())
  }

  lemma ExchangesEffect(t: Topology)
    ensures var (p, ok) := RunOps(t, MainOps()[..2]);
            && (ok <==> Agree(t.exchanges, TargetExchanges()))
            && (ok ==> p == t.(exchanges := t.exchanges + TargetExchanges()))
  {
    NamesDistinct();
    RunOpsAppend(t, [], DeclareExchange(TASK_EXCHANGE, Direct));
    RunOpsAppend(t, [DeclareExchange(TASK_EXCHANGE, Direct)], DeclareExchange(DLX_EXCHANGE, Direct));
    assert [] + [DeclareExchange(TASK_EXCHANGE, Direct)] == [DeclareExchange(TASK_EXCHANGE, Direct)];
    assert MainOps()[..2] == [DeclareExchange(TASK_EXCHANGE, Direct)] + [DeclareExchange(DLX_EXCHANGE, Direct)];
    assert t.exchanges[TASK_EXCHANGE := Direct][DLX_EXCHANGE := Direct] == t.exchanges + TargetExchanges();
  }

  lemma BindingAccepted(t: Topology, ops: seq<Op>, b: Binding)
    requires RunOps(t, ops).1 ==> Accepts(RunOps(t, ops).0, Bind(b))
    ensures var (p, ok) := RunOps(t, ops);
            RunOps(t, ops + [Bind(b)]) == if ok then (p.(bindings := p.bindings + {b}), true) else (p, false)
  {
    RunOpsAppend(t, ops, Bind(b));
  }

  lemma MainOpsEffect(t: Topology)
    ensures RunOps(t, MainOps()).1 <==> MainCompatible(t)
    ensures MainCompatible(t) ==> RunOps(t, MainOps()).0 == WithMain(t)
  {
    var ops := MainOps();
    ExchangesEffect(t);
    RunOpsAppend(t, ops[..2], ops[2]);
    assert ops[..3] == ops[..2] + [ops[2]];
    BindingAccepted(t, ops[..3], ops[3].binding);
    assert ops[..4] == ops[..3] + [ops[3]];
    BindingAccepted(t, ops[..4], ops[4].binding);
    assert ops == ops[..4] + [ops[4]];
    assert t.bindings + {ops[3].binding} + {ops[4].binding} == t.bindings + MainBindings();
  }

  ghost predicate RetryCompatible(t: Topology, qs: seq<RetryQueue>) {
    forall i :: 0 <= i < |qs| ==> qs[i].name in t.queues ==> t.queues[qs[i].name] == RetryArgs(qs[i])
  }

  /** Declaring and binding one delay queue. */
  lemma RetryStep(t: Topology, before: seq<Op>, q: RetryQueue)
    requires RunOps(t, before).1 ==> DLX_EXCHANGE in RunOps(t, before).0.exchanges
    ensures var ops := before + [DeclareQueue(q.name, RetryArgs(q))] + [Bind(Binding(DLX_EXCHANGE, q.name, q.name))];
            var (p, ok) := RunOps(t, before);
            var fine := ok && (q.name in p.queues ==> p.queues[q.name] == RetryArgs(q));
            && RunOps(t, ops).1 == fine
            && (fine ==> RunOps(t, ops).0 == p.(queues := p.queues[q.name := RetryArgs(q)],
                                                bindings := p.bindings + {Binding(DLX_EXCHANGE, q.name, q.name)}))
  {
    var declare, bind := DeclareQueue(q.name, RetryArgs(q)), Bind(Binding(DLX_EXCHANGE, q.name, q.name));
    RunOpsAppend(t, before, declare);
    RunOpsAppend(t, before + [declare], bind);
  }

  function WithRetries(b: Topology, qs: seq<RetryQueue>): Topology {
    b.(queues := b.queues + RetryTable(qs), bindings := b.bindings + RetryBindings(qs))
  }

  lemma WithOneMore(b: Topology, qs: seq<RetryQueue>, q: RetryQueue)
    ensures var p := WithRetries(b, qs);
            WithRetries(b, qs + [q]) == p.(queues := p.queues[q.name := RetryArgs(q)],
                                           bindings := p.bindings + {Binding(DLX_EXCHANGE, q.name, q.name)})
  {
    assert (qs + [q])[..|qs|] == qs;
    assert RetryBindings(qs + [q]) == RetryBindings(qs) + {Binding(DLX_EXCHANGE, q.name, q.name)};
  }

  lemma OtherNameUnaffected(b: Topology, qs: seq<RetryQueue>, q: RetryQueue)
    requires DistinctNames(qs + [q])
    ensures q.name in WithRetries(b, qs).queues <==> q.name in b.queues
    ensures q.name in b.queues ==> WithRetries(b, qs).queues[q.name] == b.queues[q.name]
  {
    assert forall i :: 0 <= i < |qs| ==> (qs + [q])[i] == qs[i];
    assert (qs + [q])[|qs|] == q;
    RetryTableAt(qs);
  }

  /** The outcome of declaring the delay queues `qs` on top of `b`. */
  ghost predicate Outcome(result: (Topology, bool), b: Topology, qs: seq<RetryQueue>) {
    result.1 == RetryCompatible(b, qs) && (result.1 ==> result.0 == WithRetries(b, qs))
  }

  lemma OutcomeNext(t: Topology, before: seq<Op>, b: Topology, qs: seq<RetryQueue>, q: RetryQueue)
    requires Outcome(RunOps(t, before), b, qs) && DLX_EXCHANGE in b.exchanges && DistinctNames(qs + [q])
    ensures Outcome(RunOps(t, before + [DeclareQueue(q.name, RetryArgs(q))] + [Bind(Binding(DLX_EXCHANGE, q.name, q.name))]),
                    b, qs + [q])
  {
    RetryStep(t, before, q);
    OtherNameUnaffected(b, qs, q);
    WithOneMore(b, qs, q);
    RetryCompatibleNext(b, qs, q);
  }

  lemma {:induction false} RetryOpsEffect(t: Topology, base: seq<Op>, qs: seq<RetryQueue>)
    requires RunOps(t, base).1 && DLX_EXCHANGE in RunOps(t, base).0.exchanges && DistinctNames(qs)
    ensures Outcome(RunOps(t, base + RetryOps(qs)), RunOps(t, base).0, qs)
    decreases |qs|
  {
    var b := RunOps(t, base).0;
    if qs == [] {
      assert base + RetryOps(qs) == base;
      NoRetries(b);
    } else {
      var n := |qs| - 1;
      RetryOpsEffect(t, base, qs[..n]);
      assert qs == qs[..n] + [qs[n]];
      OutcomeNext(t, base + RetryOps(qs[..n]), b, qs[..n], qs[n]);
      RetryOpsNext(base, qs);
    }
  }

  lemma NoRetries(b: Topology)
    ensures Outcome((b, true), b, [])
  {
    assert b.bindings + RetryBindings([]) == b.bindings && b.queues + RetryTable([]) == b.queues;
  }

  lemma AppendAssociates<T>(a: seq<T>, b: seq<T>, c: seq<T>, d: seq<T>)
    ensures a + (b + c + d) == a + b + c + d
  {
  }

  lemma RetryOpsNext(base: seq<Op>, qs: seq<RetryQueue>)
    requires qs != []
    ensures var q := qs[|qs| - 1];
            base + RetryOps(qs) == base + RetryOps(qs[..|qs| - 1])
              + [DeclareQueue(q.name, RetryArgs(q))] + [Bind(Binding(DLX_EXCHANGE, q.name, q.name))]
  {
    var q := qs[|qs| - 1];
    AppendAssociates(base, RetryOps(qs[..|qs| - 1]), [DeclareQueue(q.name, RetryArgs(q))],
                     [Bind(Binding(DLX_EXCHANGE, q.name, q.name))]);
  }

  lemma RetryCompatibleNext(b: Topology, qs: seq<RetryQueue>, q: RetryQueue)
    ensures RetryCompatible(b, qs + [q]) ==
            (RetryCompatible(b, qs) && (q.name in b.queues ==> b.queues[q.name] == RetryArgs(q)))
  {
    assert forall i :: 0 <= i < |qs| ==> (qs + [q])[i] == qs[i];
    assert (qs + [q])[|qs|] == q;
  }

  /** Start-up succeeds exactly on a compatible broker, and then adds exactly what is missing. */
  lemma SetupCompletes(t: Topology)
    ensures RunOps(t, SetupOps()).1 <==> Compatible(t)
    ensures Compatible(t) ==> RunOps(t, SetupOps()) == (Completed(t), true)
  {
    NamesDistinct();
    RetryTableAt(RETRY_QUEUES);
    MainOpsEffect(t);
    CompatibleSplit(t);
    if MainCompatible(t) {
      RetryOpsEffect(t, MainOps(), RETRY_QUEUES);
      if Compatible(t) { CompletedSplit(t); }
    } else {
      RunOpsStops(t, MainOps(), RetryOps(RETRY_QUEUES));
    }
  }

  /** After a successful start-up everything is declared under its name, with its delay. */
  lemma SetupDeclares(t: Topology)
    ensures RunOps(t, SetupOps()).1 ==> Declared(RunOps(t, SetupOps()).0)
  {
    SetupCompletes(t);
    CompletedIsDeclared(t);
  }

  lemma CompatibleSplit(t: Topology)
    ensures Compatible(t) <==> MainCompatible(t) && RetryCompatible(WithMain(t), RETRY_QUEUES)
  {
    NamesDistinct();
    RetryTableAt(RETRY_QUEUES);
    if MainCompatible(t) && RetryCompatible(WithMain(t), RETRY_QUEUES) {
      forall name | name in t.queues && name in TargetQueues() ensures t.queues[name] == TargetQueues()[name] {
        if name != TASK_QUEUE {
          var i :| 0 <= i < |RETRY_QUEUES| && RETRY_QUEUES[i].name == name;
          assert WithMain(t).queues[name] == t.queues[name];
        }
      }
    }
    if Compatible(t) {
      forall i | 0 <= i < |RETRY_QUEUES| && RETRY_QUEUES[i].name in WithMain(t).queues
        ensures WithMain(t).queues[RETRY_QUEUES[i].name] == RetryArgs(RETRY_QUEUES[i])
      {
        assert RETRY_QUEUES[i].name in t.queues && RETRY_QUEUES[i].name in TargetQueues();
      }
    }
  }

  lemma CompletedSplit(t: Topology)
    ensures Completed(t) == WithRetries(WithMain(t), RETRY_QUEUES)
  {
    NamesDistinct();
    RetryTableAt(RETRY_QUEUES);
    assert TASK_QUEUE !in RetryTable(RETRY_QUEUES);
    assert t.queues + TargetQueues() == t.queues[TASK_QUEUE := MainArgs()] + RetryTable(RETRY_QUEUES);
  }

  // ---- interrupted start-ups ----

  ghost predicate SubMap<V(!new)>(a: map<string, V>, b: map<string, V>) {
    forall name :: name in a ==> name in b && b[name] == a[name]
  }

  ghost predicate Within(a: Topology, b: Topology) {
    SubMap(a.exchanges, b.exchanges) && SubMap(a.queues, b.queues) && a.bindings <= b.bindings
  }

  /** Something between what was there and what start-up wants. */
  ghost predicate PartlyBuilt(t: Topology, p: Topology) {
    Within(t, p) && Within(p, Completed(t))
  }

  /** The operation declares or binds something of the target. */
  ghost predicate Wanted(op: Op) {
    match op
    case DeclareExchange(name, kind) => name in TargetExchanges() && TargetExchanges()[name] == kind
    case DeclareQueue(name, args) => name in TargetQueues() && TargetQueues()[name] == args
    case Bind(b) => b in SetupBindings()
  }

  lemma RetryWanted(i: nat)
    requires i < |RETRY_QUEUES|
    ensures var q := RETRY_QUEUES[i];
            Wanted(DeclareQueue(q.name, RetryArgs(q))) && Wanted(Bind(Binding(DLX_EXCHANGE, q.name, q.name)))
  {
    NamesDistinct();
    RetryTableAt(RETRY_QUEUES);
    assert RETRY_QUEUES[i] in RETRY_QUEUES;
  }

  lemma {:induction false} RetryOpsWanted(k: nat)
    requires k <= |RETRY_QUEUES|
    ensures forall op :: op in RetryOps(RETRY_QUEUES[..k]) ==> Wanted(op)
  {
    if k == 0 {
    } else {
      RetryOpsWanted(k - 1);
      RetryWanted(k - 1);
      assert RETRY_QUEUES[..k][..k - 1] == RETRY_QUEUES[..k - 1];
      var q := RETRY_QUEUES[k - 1];
      assert RetryOps(RETRY_QUEUES[..k])
          == RetryOps(RETRY_QUEUES[..k - 1]) + [DeclareQueue(q.name, RetryArgs(q))] + [Bind(Binding(DLX_EXCHANGE, q.name, q.name))];
    }
  }

  lemma SetupOpsWanted()
    ensures forall op :: op in SetupOps() ==> Wanted(op)
  {
    RetryOpsWanted(|RETRY_QUEUES|);
    assert RETRY_QUEUES[..|RETRY_QUEUES|] == RETRY_QUEUES;
    assert forall op :: op in MainOps() ==> Wanted(op) by {
      NamesDistinct();
    }
  }

  lemma {:induction false} PartialRun(t: Topology, p: Topology, ops: seq<Op>)
    requires PartlyBuilt(t, p) && forall op :: op in ops ==> Wanted(op)
    ensures PartlyBuilt(t, RunOps(p, ops).0)
    decreases |ops|
  {
    if ops == [] {
    } else {
      var n := |ops| - 1;
      PartialRun(t, p, ops[..n]);
      assert Wanted(ops[n]) by { assert ops[n] in ops; }
    }
  }

  lemma PartlyBuiltCompletes(t: Topology, p: Topology)
    requires Compatible(t) && PartlyBuilt(t, p)
    ensures Compatible(p) && Completed(p) == Completed(t)
  {
    assert p.exchanges + TargetExchanges() == t.exchanges + TargetExchanges();
    assert p.queues + TargetQueues() == t.queues + TargetQueues();
  }

  /**
   However often start-up is cut short, after any number of operations, the partly built topology
   stays partly built, and the next start-up that is not cut short completes it.
   */
  lemma SetupConverges(t: Topology, p: Topology, k: nat)
    requires Compatible(t) && PartlyBuilt(t, p) && k <= |SetupOps()|
    ensures PartlyBuilt(t, RunOps(p, SetupOps()[..k]).0)
    ensures RunOps(p, SetupOps()) == (Completed(t), true)
  {
    SetupOpsWanted();
    PartialRun(t, p, SetupOps()[..k]);
    PartlyBuiltCompletes(t, p);
    SetupCompletes(p);
  }

  /** Running it again on a finished topology changes nothing. */
  lemma SetupIdempotent(t: Topology)
    requires Compatible(t)
    ensures RunOps(Completed(t), SetupOps()) == (Completed(t), true)
  {
    SetupConverges(t, Completed(t), 0);
  }

  // ---- routing ----

  /** A direct exchange delivers to the queues bound with exactly the message's key. */
  ghost function Route(t: Topology, exchange: string, key: string): set<string> {
    set b | b in t.bindings && b.exchange == exchange && b.key == key :: b.queue
  }

  ghost predicate RetryName(name: string) {
    exists i :: 0 <= i < |RETRY_QUEUES| && RETRY_QUEUES[i].name == name
  }

  /** The routes start-up adds: the task queue on both exchanges, each delay queue under its name. */
  ghost function AddedRoute(exchange: string, key: string): set<string> {
    if exchange == TASK_EXCHANGE && key == TASK_QUEUE then {key}
    else if exchange == DLX_EXCHANGE && (key == TASK_QUEUE || RetryName(key)) then {key}
    else {}
  }

  lemma RetryBindingAt(exchange: string, key: string, queue: string)
    ensures Binding(exchange, key, queue) in RetryBindings(RETRY_QUEUES) <==>
              exchange == DLX_EXCHANGE && key == queue && RetryName(key)
  {
    if exchange == DLX_EXCHANGE && key == queue && RetryName(key) {
      var i :| 0 <= i < |RETRY_QUEUES| && RETRY_QUEUES[i].name == key;
      assert RETRY_QUEUES[i] in RETRY_QUEUES;
    }
  }

  lemma SetupBindingAt(exchange: string, key: string, queue: string)
    ensures Binding(exchange, key, queue) in SetupBindings() <==> queue in AddedRoute(exchange, key)
  {
    NamesDistinct();
    RetryBindingAt(exchange, key, queue);
  }

  /** On any broker, start-up adds these routes to those there were, and no others. */
  lemma Routes(t: Topology, exchange: string, key: string)
    ensures Route(Completed(t), exchange, key) == Route(t, exchange, key) + AddedRoute(exchange, key)
  {
    forall queue
      ensures queue in Route(Completed(t), exchange, key) <==> queue in Route(t, exchange, key) + AddedRoute(exchange, key)
    {
      SetupBindingAt(exchange, key, queue);
      RouteAt(t, exchange, key, queue);
      RouteAt(Completed(t), exchange, key, queue);
    }
  }

  lemma RouteAt(t: Topology, exchange: string, key: string, queue: string)
    ensures queue in Route(t, exchange, key) <==> Binding(exchange, key, queue) in t.bindings
  {
  }

  /** Where the broker sends a message dead-lettered from a queue; nowhere if the queue names no exchange. */
  ghost function DeadLetterRoute(t: Topology, queue: string): set<string> {
    if queue in t.queues && t.queues[queue].deadLetter.Some? then
      var (exchange, key) := t.queues[queue].deadLetter.value;
      Route(t, exchange, key)
    else {}
  }

  lemma DelayQueueRoute(t: Topology, i: nat)
    requires i < |RETRY_QUEUES|
    ensures var name := RETRY_QUEUES[i].name;
            && name in Completed(t).queues && Completed(t).queues[name] == RetryArgs(RETRY_QUEUES[i])
            && DeadLetterRoute(Completed(t), name) == Route(t, DLX_EXCHANGE, TASK_QUEUE) + {TASK_QUEUE}
  {
    NamesDistinct();
    RetryTableAt(RETRY_QUEUES);
    Routes(t, DLX_EXCHANGE, TASK_QUEUE);
  }

  /** The delay of a level in milliseconds: a second, doubled level by level. */
  function Delay(level: nat): nat {
    if level == 0 then 1000 else 2 * Delay(level - 1)
  }

  lemma {:induction false} DelayOfLevel(i: nat)
    requires i < |RETRY_QUEUES|
    ensures RETRY_QUEUES[i].ttl == Delay(i)
  {
    if i == 0 {
    } else {
      DelayOfLevel(i - 1);
      assert RETRY_QUEUES[i].ttl == 2 * RETRY_QUEUES[i - 1].ttl;
    }
  }

  /**
   Every delay queue has its own delay and hands its messages back to the task queue, never to
   another delay queue; and to the task queue alone iff nothing else was bound there before.
   */
  lemma DelayQueuesFormAStar(t: Topology, i: nat)
    requires i < |RETRY_QUEUES|
    ensures var name, star := RETRY_QUEUES[i].name, DeadLetterRoute(Completed(t), RETRY_QUEUES[i].name);
            && name in Completed(t).queues && Completed(t).queues[name].ttl == Some(Delay(i))
            && TASK_QUEUE in star
            && (star == {TASK_QUEUE} <==> forall q :: Binding(DLX_EXCHANGE, TASK_QUEUE, q) in t.bindings ==> q == TASK_QUEUE)
  {
    DelayQueueRoute(t, i);
    DelayOfLevel(i);
    var star := DeadLetterRoute(Completed(t), RETRY_QUEUES[i].name);
    forall q ensures q in star <==> Binding(DLX_EXCHANGE, TASK_QUEUE, q) in t.bindings || q == TASK_QUEUE {
      RouteAt(t, DLX_EXCHANGE, TASK_QUEUE, q);
    }
  }

  /** Start-up never binds the task queue's dead-letter key: a rejected message goes where it went before. */
  lemma RejectRoute(t: Topology)
    ensures DeadLetterRoute(Completed(t), TASK_QUEUE) == Route(t, DLX_EXCHANGE, REJECT_KEY)
  {
    NamesDistinct();
    Routes(t, DLX_EXCHANGE, REJECT_KEY);
    assert TASK_QUEUE != REJECT_KEY && !RetryName(REJECT_KEY) by {
      assert TASK_QUEUE[0] == 't' && REJECT_KEY[0] == 'r';
      forall i | 0 <= i < |RETRY_QUEUES| ensures RETRY_QUEUES[i].name != REJECT_KEY {
        assert RETRY_QUEUES[i].name[0] == 't';
      }
    }
  }

  /** A message rejected on the task queue is lost iff nobody else had bound the key; on a new broker, always. */
  lemma RejectedTasksAreLostIff(t: Topology)
    ensures DeadLetterRoute(Completed(t), TASK_QUEUE) == {} <==>
              forall q :: Binding(DLX_EXCHANGE, REJECT_KEY, q) !in t.bindings
    ensures DeadLetterRoute(Completed(EMPTY), TASK_QUEUE) == {}
  {
    RejectRoute(t);
    RejectRoute(EMPTY);
    forall q ensures q in Route(t, DLX_EXCHANGE, REJECT_KEY) <==> Binding(DLX_EXCHANGE, REJECT_KEY, q) in t.bindings {
      RouteAt(t, DLX_EXCHANGE, REJECT_KEY, q);
    }
  }

  /** It waits in the one-second queue, as the key's name suggests, iff that binding was made beforehand, and only that. */
  lemma RejectedTasksWaitIff(t: Topology)
    ensures DeadLetterRoute(Completed(t), TASK_QUEUE) == {RETRY_QUEUES[0].name} <==>
              forall q :: Binding(DLX_EXCHANGE, REJECT_KEY, q) in t.bindings <==> q == RETRY_QUEUES[0].name
  {
    RejectRoute(t);
    forall q ensures q in Route(t, DLX_EXCHANGE, REJECT_KEY) <==> Binding(DLX_EXCHANGE, REJECT_KEY, q) in t.bindings {
      RouteAt(t, DLX_EXCHANGE, REJECT_KEY, q);
    }
  }
}
