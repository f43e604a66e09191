/** Push-pull gossip between nodes: pushes and replies travel as messages that may
    be lost, delayed or duplicated. Nodes are honest and do not restart. */
module GossipClusters {
  import opened Basics
  import opened VectorClocks
  import opened Gossip

  /** A counter table on its way to `to`; `reply` marks the answer to a push. */
  datatype Message = Message(to: NodeId, from: NodeId, table: Wire, reply: bool)

  /** Every message ever sent stays deliverable, any number of times; a lost
      message is one that is never delivered. */
  datatype Cluster = Cluster(tables: map<NodeId, Table>, sent: set<Message>)

  datatype Step =
    | TickNode(node: NodeId, now: real)
    | Push(node: NodeId, peer: NodeId)
    | DeliverPush(message: Message, now: real)
    | DeliverReply(message: Message, now: real)

  ghost predicate Started(s: Cluster) {
    && s.sent == {}
    && forall n :: n in s.tables ==> exists at :: s.tables[n] == map[n := Entry(0, at)]
  }

  predicate Enabled(s: Cluster, step: Step) {
    match step
    case TickNode(node, _) => node in s.tables && node in s.tables[node]
    case Push(node, peer) => node in s.tables && peer in s.tables && node != peer
    case DeliverPush(m, _) => m in s.sent && !m.reply && m.to in s.tables
    case DeliverReply(m, _) => m in s.sent && m.reply && m.to in s.tables
  }

  function Apply(s: Cluster, step: Step): Cluster
    requires Enabled(s, step)
  {
    match step
    case TickNode(node, now) =>
      s.(tables := s.tables[node := Ticked(s.tables[node], node, now)])
    case Push(node, peer) =>
      s.(sent := s.sent + {Message(peer, node, WireOf(s.tables[node]), false)})
    case DeliverPush(m, now) =>
      var merged := MergedTable(s.tables[m.to], m.to, m.table, now);
      Cluster(s.tables[m.to := merged], s.sent + {Message(m.from, m.to, WireOf(merged), true)})
    case DeliverReply(m, now) =>
      s.(tables := s.tables[m.to := MergedTable(s.tables[m.to], m.to, m.table, now)])
  }

  datatype Run = Start(initial: Cluster) | Then(prev: Run, step: Step)

  ghost predicate Legal(run: Run)
    decreases run, 0
  {
    match run
    case Start(initial) => Started(initial)
    case Then(prev, step) => Legal(prev) && Enabled(Final(prev), step)
  }

  ghost function Final(run: Run): Cluster
    requires Legal(run)
    decreases run, 1
  {
    match run
    case Start(initial) => initial
    case Then(prev, step) => Apply(Final(prev), step)
  }

  /** The heartbeat counter a node keeps for itself. */
  function Own(s: Cluster, n: NodeId): nat {
    if n in s.tables && n in s.tables[n] then s.tables[n][n].counter else 0
  }

  /** No counter in `wire` exceeds its owner's, and owners are cluster members. */
  ghost predicate Truthful(s: Cluster, wire: Wire) {
    forall j :: j in wire ==> j in s.tables && wire[j] <= Own(s, j)
  }

  ghost predicate NeverAhead(s: Cluster) {
    && (forall n {:trigger s.tables[n]} :: n in s.tables ==> n in s.tables[n])
    && (forall n {:trigger WireOf(s.tables[n])} :: n in s.tables ==> Truthful(s, WireOf(s.tables[n])))
    && (forall m :: m in s.sent ==> Truthful(s, m.table))
  }

  /** The view `n` has of `j`; zero when it never heard of it. */
  function View(s: Cluster, n: NodeId, j: NodeId): nat {
    if n in s.tables && j in s.tables[n] then s.tables[n][j].counter else 0
  }

  /** Nothing is forgotten or lowered, and the own counter rises by `ticks`. */
  ghost predicate Grows(t: Table, t': Table, self: NodeId, ticks: nat) {
    && self in t && self in t'
    && t.Keys <= t'.Keys
    && (forall j :: j in t ==> t[j].counter <= t'[j].counter)
    && t'[self].counter == t[self].counter + ticks
  }

  function TicksIn(step: Step, n: NodeId): nat {
    if step.TickNode? && step.node == n then 1 else 0
  }

  /** One step: views never decrease, and an own counter moves, by exactly one,
      only on that node's own tick. */
  lemma {:induction false} StepGrows(s: Cluster, step: Step, n: NodeId)
    requires Enabled(s, step) && n in s.tables && n in s.tables[n]
    ensures n in Apply(s, step).tables
    ensures Grows(s.tables[n], Apply(s, step).tables[n], n, TicksIn(step, n))
  {}

  /** News about other nodes comes from the old table or from the delivered message. */
  lemma {:induction false} StepSource(s: Cluster, step: Step, n: NodeId, j: NodeId)
    requires Enabled(s, step) && n in s.tables && n in s.tables[n]
    requires j in Apply(s, step).tables[n] && j != n
    ensures var counter := Apply(s, step).tables[n][j].counter;
            || (j in s.tables[n] && counter == s.tables[n][j].counter)
            || ((step.DeliverPush? || step.DeliverReply?)
                && j in step.message.table && counter == step.message.table[j])
  {}

  lemma {:induction false} OwnGrows(s: Cluster, step: Step)
    requires NeverAhead(s) && Enabled(s, step)
    ensures forall j :: Own(Apply(s, step), j) == Own(s, j) + if j in s.tables then TicksIn(step, j) else 0
    ensures forall n, j :: View(s, n, j) <= View(Apply(s, step), n, j)
  {
    var s' := Apply(s, step);
    assert s'.tables.Keys == s.tables.Keys;
    forall n, j
      ensures View(s, n, j) <= View(s', n, j)
    {
      if n in s.tables {
        StepGrows(s, step, n);
      }
    }
    forall j
      ensures Own(s', j) == Own(s, j) + if j in s.tables then TicksIn(step, j) else 0
    {
      if j in s.tables {
        StepGrows(s, step, j);
      }
    }
  }

  ghost predicate OwnersMonotone(s: Cluster, s': Cluster) {
    s'.tables.Keys == s.tables.Keys && forall j {:trigger Own(s', j)} :: Own(s, j) <= Own(s', j)
  }

  lemma {:induction false} StepOwnersMonotone(s: Cluster, step: Step)
    requires NeverAhead(s) && Enabled(s, step)
    ensures OwnersMonotone(s, Apply(s, step))
  {
    OwnGrows(s, step);
  }

  lemma {:induction false} TruthfulPersists(s: Cluster, s': Cluster, wire: Wire)
    requires Truthful(s, wire) && OwnersMonotone(s, s')
    ensures Truthful(s', wire)
  {}

  lemma {:induction false} TableStaysTruthful(s: Cluster, step: Step, n: NodeId)
    requires NeverAhead(s) && Enabled(s, step) && n in s.tables
    ensures n in Apply(s, step).tables && n in Apply(s, step).tables[n]
    ensures Truthful(Apply(s, step), WireOf(Apply(s, step).tables[n]))
  {
    var s' := Apply(s, step);
    StepGrows(s, step, n);
    StepOwnersMonotone(s, step);
    var wire := WireOf(s.tables[n]);
    TruthfulPersists(s, s', wire);
    if step.DeliverPush? || step.DeliverReply? {
      TruthfulPersists(s, s', step.message.table);
    }
    var wire' := WireOf(s'.tables[n]);
    forall j | j in wire'
      ensures j in s'.tables && wire'[j] <= Own(s', j)
    {
      if j != n {
        StepSource(s, step, n, j);
      }
    }
  }

  lemma {:induction false} MessageStaysTruthful(s: Cluster, step: Step, m: Message)
    requires NeverAhead(s) && Enabled(s, step) && m in Apply(s, step).sent
    ensures Truthful(Apply(s, step), m.table)
  {
    var s' := Apply(s, step);
    if m in s.sent {
      StepOwnersMonotone(s, step);
      TruthfulPersists(s, s', m.table);
    } else if step.Push? {
      TableStaysTruthful(s, step, step.node);
    } else {
      TableStaysTruthful(s, step, step.message.to);
    }
  }

  lemma {:induction false} NeverAheadStep(s: Cluster, step: Step)
    requires NeverAhead(s) && Enabled(s, step)
    ensures NeverAhead(Apply(s, step))
  {
    var s' := Apply(s, step);
    forall n | n in s'.tables
      ensures n in s'.tables[n] && Truthful(s', WireOf(s'.tables[n]))
    {
      StepOwnersMonotone(s, step);
      TableStaysTruthful(s, step, n);
    }
    forall m | m in s'.sent
      ensures Truthful(s', m.table)
    {
      MessageStaysTruthful(s, step, m);
    }
  }

  /** Over any run, no view and no message in flight is ahead of the node it reports. */
  lemma {:induction false} GossipNeverRunsAhead(run: Run)
    requires Legal(run)
    ensures NeverAhead(Final(run))
  {
    match run
    case Start(initial) =>
      forall n | n in initial.tables
        ensures n in initial.tables[n] && Truthful(initial, WireOf(initial.tables[n]))
      {
        var at :| initial.tables[n] == map[n := Entry(0, at)];
      }
    case Then(prev, step) =>
      GossipNeverRunsAhead(prev);
      NeverAheadStep(Final(prev), step);
  }

  function TicksOf(run: Run, n: NodeId): nat {
    match run
    case Start(_) => 0
    case Then(prev, step) => TicksOf(prev, n) + TicksIn(step, n)
  }

  /** A node's own counter is the number of its ticks in the whole run, so every
      counter anyone holds for it is at most that number. */
  lemma {:induction false} OwnCounterCountsTicks(run: Run, n: NodeId)
    requires Legal(run)
    ensures Own(Final(run), n) == TicksOf(run, n)
    ensures forall observer :: View(Final(run), observer, n) <= TicksOf(run, n)
  {
    GossipNeverRunsAhead(run);
    match run
    case Start(initial) =>
      if n in initial.tables {
        var at :| initial.tables[n] == map[n := Entry(0, at)];
      }
    case Then(prev, step) =>
      OwnCounterCountsTicks(prev, n);
      GossipNeverRunsAhead(prev);
      OwnGrows(Final(prev), step);
    forall observer
      ensures View(Final(run), observer, n) <= TicksOf(run, n)
    {
      var s := Final(run);
      if observer in s.tables && n in s.tables[observer] {
        assert n in WireOf(s.tables[observer]);
      }
    }
  }

  /** `later` continues `earlier`. */
  ghost predicate Extends(later: Run, earlier: Run) {
    later == earlier || (later.Then? && Extends(later.prev, earlier))
  }

  /** No view ever decreases in a run. */
  lemma {:induction false} ViewsNeverDecrease(earlier: Run, later: Run, n: NodeId, j: NodeId)
    requires Legal(later) && Extends(later, earlier) && Legal(earlier)
    ensures View(Final(earlier), n, j) <= View(Final(later), n, j)
    decreases later
  {
    if later != earlier {
      ViewsNeverDecrease(earlier, later.prev, n, j);
      GossipNeverRunsAhead(later.prev);
      OwnGrows(Final(later.prev), later.step);
    }
  }

  // ----- what this gives the failure detector

  function EntryOf(s: Cluster, n: NodeId, j: NodeId): Option<Entry> {
    if n in s.tables && j in s.tables[n] then Some(s.tables[n][j]) else None
  }

  /** How much `n` knows of `j`: nothing, or one more than the counter it holds. */
  function Level(s: Cluster, n: NodeId, j: NodeId): nat {
    if EntryOf(s, n, j).None? then 0 else EntryOf(s, n, j).value.counter + 1
  }

  /** The steps since `earlier` that changed what `n` holds about `j`, its time stamp included. */
  ghost function Refreshes(earlier: Run, later: Run, n: NodeId, j: NodeId): nat
    requires Legal(later) && Legal(earlier) && Extends(later, earlier)
    decreases later
  {
    if later == earlier then 0
    else
      Refreshes(earlier, later.prev, n, j)
      + if EntryOf(Final(later), n, j) == EntryOf(Final(later.prev), n, j) then 0 else 1
  }

  lemma {:induction false} RefreshRaises(s: Cluster, step: Step, n: NodeId, j: NodeId)
    requires NeverAhead(s) && Enabled(s, step) && n != j
    ensures EntryOf(Apply(s, step), n, j) == EntryOf(s, n, j) || Level(Apply(s, step), n, j) > Level(s, n, j)
  {}

  lemma {:induction false} LevelIsBounded(s: Cluster, n: NodeId, j: NodeId)
    requires NeverAhead(s)
    ensures Level(s, n, j) <= Own(s, j) + 1
  {
    if n in s.tables && j in s.tables[n] {
      assert j in WireOf(s.tables[n]);
    }
  }

  lemma {:induction false} RefreshesRaise(earlier: Run, later: Run, n: NodeId, j: NodeId)
    requires Legal(later) && Legal(earlier) && Extends(later, earlier) && n != j
    ensures Level(Final(earlier), n, j) + Refreshes(earlier, later, n, j) <= Level(Final(later), n, j)
    decreases later
  {
    if later != earlier {
      RefreshesRaise(earlier, later.prev, n, j);
      GossipNeverRunsAhead(later.prev);
      RefreshRaises(Final(later.prev), later.step, n, j);
    }
  }

  /** A view is refreshed at most once for every count it has not heard of yet. Once a
      node stops ticking, the refreshes that remain are therefore bounded, however often
      old messages are delivered. */
  lemma {:induction false} RefreshesAreBounded(earlier: Run, later: Run, n: NodeId, j: NodeId)
    requires Legal(later) && Legal(earlier) && Extends(later, earlier) && n != j
    ensures Level(Final(earlier), n, j) + Refreshes(earlier, later, n, j) <= TicksOf(later, j) + 1
  {
    RefreshesRaise(earlier, later, n, j);
    GossipNeverRunsAhead(later);
    LevelIsBounded(Final(later), n, j);
    OwnCounterCountsTicks(later, j);
  }

  lemma {:induction false} NoRefreshNoChange(earlier: Run, later: Run, n: NodeId, j: NodeId)
    requires Legal(later) && Legal(earlier) && Extends(later, earlier) && Refreshes(earlier, later, n, j) == 0
    ensures EntryOf(Final(later), n, j) == EntryOf(Final(earlier), n, j)
    decreases later
  {
    if later != earlier {
      NoRefreshNoChange(earlier, later.prev, n, j);
    }
  }

  /** Completeness: a node that heard the last count of a peer which never ticks again
      keeps its entry for good, so the verdict is down from one timeout after that news
      was stamped, in every continuation of the run. */
  lemma {:induction false} SilentPeerStaysDown(earlier: Run, later: Run, n: NodeId, j: NodeId, now: real, timeout: real)
    requires Legal(later) && Legal(earlier) && Extends(later, earlier) && n != j
    requires n in Final(earlier).tables && j in Final(earlier).tables[n]
    requires View(Final(earlier), n, j) == Own(Final(earlier), j) && TicksOf(later, j) == TicksOf(earlier, j)
    ensures n in Final(later).tables && j in Final(later).tables[n]
    ensures Final(later).tables[n][j] == Final(earlier).tables[n][j]
    ensures BelievedDown(Final(later).tables[n], n, j, now, timeout) <==>
            now - Final(earlier).tables[n][j].seen > timeout
  {
    OwnCounterCountsTicks(earlier, j);
    RefreshesAreBounded(earlier, later, n, j);
    NoRefreshNoChange(earlier, later, n, j);
    assert EntryOf(Final(earlier), n, j) == Some(Final(earlier).tables[n][j]);
  }

  lemma {:induction false} PushMerges(s: Cluster, from: NodeId, to: NodeId, now: real, j: NodeId)
    requires NeverAhead(s) && from in s.tables && to in s.tables && from != to && j != to
    requires var m := Message(to, from, WireOf(s.tables[from]), false); Enabled(s, DeliverPush(m, now))
    ensures var s' := Apply(s, DeliverPush(Message(to, from, WireOf(s.tables[from]), false), now));
            View(s', to, j) == Max(View(s, to, j), View(s, from, j))
  {}

  /** News can always spread: from every reachable state one push makes the receiver know
      all that the sender knows, its own counter included, and no count is invented. */
  lemma {:induction false} OnePushSpreadsNews(run: Run, from: NodeId, to: NodeId, now: real) returns (later: Run)
    requires Legal(run) && from in Final(run).tables && to in Final(run).tables && from != to
    ensures Legal(later) && Extends(later, run)
    ensures forall j :: Own(Final(later), j) == Own(Final(run), j)
    ensures View(Final(later), to, from) == Own(Final(run), from)
    ensures forall j :: j != to ==>
              View(Final(later), to, j) == Max(View(Final(run), to, j), View(Final(run), from, j))
  {
    var s := Final(run);
    GossipNeverRunsAhead(run);
    var message := Message(to, from, WireOf(s.tables[from]), false);
    var pushed := Then(run, Push(from, to));
    later := Then(pushed, DeliverPush(message, now));
    GossipNeverRunsAhead(pushed);
    OwnGrows(s, Push(from, to));
    OwnGrows(Final(pushed), DeliverPush(message, now));
    assert Final(pushed).tables == s.tables;
    forall j | j != to
      ensures View(Final(later), to, j) == Max(View(s, to, j), View(s, from, j))
    {
      PushMerges(Final(pushed), from, to, now, j);
    }
    LevelIsBounded(s, to, from);
  }
}
