/** Runs and inputs that show where the guarantees end. */
module Counterexamples {
  import opened Basics
  import opened VectorClocks
  import opened Antichains
  import opened Quorums
  import opened Replication
  import opened ReplicationFrame
  import opened ReplicationInvariant
  import opened Continuations
  import opened Convergence
  import opened Causality
  import opened Nodes
  import opened FlushRefinement
  import opened PutRefinement

  /** Quorums of two, as in the default N = 3, R = W = 2. */
  ghost predicate TwoOf(c: Config, a: NodeId, b: NodeId) {
    && ValidConfig(c) && ReadThreshold(c) == 2 && WriteThreshold(c) == 2
    && a in c.prefs && b in c.prefs && a != b
  }

  // ----- building blocks

  /** What a put leaves at the replicas it reaches. */
  ghost predicate PutOn(c: Config, s: State, s': State, id: OpId, v: Version, nodes: set<NodeId>)
    requires id in s.ops
  {
    && IsIssued(s', id) && VersionOf(s', id) == v && s'.ops[id] == s.ops[id].(phase := s'.ops[id].phase)
    && (IsAcked(c, s', id) <==> |nodes| >= WriteThreshold(c)) && NothingOutstanding(s', id)
    && s'.ops.Keys == s.ops.Keys && (forall o {:trigger s'.ops[o]} :: o in s.ops && o != id ==> s'.ops[o] == s.ops[o])
    && (forall u {:trigger Rep(s', u)} :: Rep(s', u) == if u in nodes then Reconciled(Rep(s, u), v) else Rep(s, u))
    && s'.flush == s.flush
  }

  /** The put has its read quorum and is about to write `v`. */
  ghost predicate ReadyToWrite(c: Config, s: State, id: OpId, v: Version) {
    && id in s.ops
    && var op := s.ops[id];
       && op.phase.Reading? && op.value.Some? && |op.collected| == ReadThreshold(c)
       && v == NextVersion(op.coordinator, op.value.value, Replies(op))
  }

  /** A put with its read quorum presumes nobody down and reaches the given replicas. */
  lemma {:induction false} WriteTo(c: Config, run: Run, id: OpId, nodes: set<NodeId>, v: Version) returns (next: Run)
    requires ValidConfig(c) && Legal(c, run) && nodes <= Elems(c.prefs) && ReadyToWrite(c, Final(run), id, v)
    ensures Legal(c, next) && Extends(next, run)
    ensures PutOn(c, Final(run), Final(next), id, v, nodes)
  {
    next := PutWrites(c, run, id, {}, Reaching(nodes), c.prefs);
    LeavesOn(c, Final(run), Final(next), id, v, nodes, c.prefs, KeepIn(c.prefs, {})
        + Failed(c.prefs, Reaching(nodes).ok));
  }

  lemma {:induction false} LeavesOn(c: Config, s: State, s': State, id: OpId, v: Version, nodes: set<NodeId>,
                                    order: seq<NodeId>, targets: seq<NodeId>)
    requires id in s.ops && Distinct(order) && nodes <= Elems(order)
    requires PutLeaves(c, s, s', id, v, Reaching(nodes), order, targets)
        && s'.ops[id] == s.ops[id].(phase := s'.ops[id].phase)
    ensures PutOn(c, s, s', id, v, nodes)
  {
    SuccessCount(order, nodes);
    assert Elems(order) * nodes == nodes;
    forall u
      ensures Rep(s', u) == if u in nodes then Reconciled(Rep(s, u), v) else Rep(s, u)
    {
      assert u in nodes ==> u in Elems(order);
    }
  }

  lemma {:induction false} PairIsQuorum(c: Config, a: NodeId, b: NodeId)
    requires TwoOf(c, a, b)
    ensures {a, b} <= Elems(c.prefs) && |{a, b}| >= WriteThreshold(c)
  {}

  /** The put of `x` by `p` read two replicas that had nothing. */
  ghost predicate ReadNothing(s: State, id: OpId, p: NodeId, x: Value) {
    && id in s.ops && s.ops[id].phase.Reading? && s.ops[id].value == Some(x) && s.ops[id].coordinator == p
    && |s.ops[id].collected| == 2 && Replies(s.ops[id]) == [[], []]
  }

  /** A put that read nothing writes the first version of its coordinator. */
  lemma {:induction false} FirstReady(c: Config, s: State, id: OpId, p: NodeId, x: Value)
    requires ReadThreshold(c) == 2 && ReadNothing(s, id, p, x)
    ensures ReadyToWrite(c, s, id, Version(x, map[p := 1]))
    ensures Reconciled([], Version(x, map[p := 1])) == [Version(x, map[p := 1])]
  {
    FirstVersion(p, x);
  }

  /** What two puts with their read quorums leave when they write to the same replicas. */
  ghost predicate PairOn(c: Config, s: State, s': State, i: OpId, v: Version, j: OpId, w: Version, nodes: set<NodeId>)
    requires i in s.ops && j in s.ops
  {
    && IsIssued(s', i) && VersionOf(s', i) == v && s'.ops[i] == s.ops[i].(phase := s'.ops[i].phase)
    && IsIssued(s', j) && VersionOf(s', j) == w && s'.ops[j] == s.ops[j].(phase := s'.ops[j].phase)
    && (|nodes| >= WriteThreshold(c) ==> IsAcked(c, s', i) && IsAcked(c, s', j))
    && s'.ops.Keys == s.ops.Keys
    && (forall o {:trigger s'.ops[o]} :: o in s.ops && o != i && o != j ==> s'.ops[o] == s.ops[o])
    && (forall u {:trigger Rep(s', u)} :: u in nodes ==> Rep(s', u) == Reconciled(Reconciled(Rep(s, u), v), w))
  }

  lemma {:induction false} PairFromBoth(c: Config, s: State, s1: State, s2: State, i: OpId, v: Version, j: OpId,
                                        w: Version, nodes: set<NodeId>)
    requires i in s.ops && j in s.ops && i != j && PutOn(c, s, s1, i, v, nodes) && PutOn(c, s1, s2, j, w, nodes)
    ensures PairOn(c, s, s2, i, v, j, w, nodes)
  {
    assert s2.ops[i] == s1.ops[i] && s1.ops[j] == s.ops[j];
    forall u | u in nodes
      ensures Rep(s2, u) == Reconciled(Reconciled(Rep(s, u), v), w)
    {
      assert Rep(s1, u) == Reconciled(Rep(s, u), v);
    }
    forall o | o in s.ops && o != i && o != j
      ensures s2.ops[o] == s.ops[o]
    {
      assert s1.ops[o] == s.ops[o];
    }
  }

  lemma {:induction false} WriteBothTo(c: Config, run: Run, i: OpId, v: Version, j: OpId, w: Version,
                                       nodes: set<NodeId>)
    returns (next: Run)
    requires ValidConfig(c) && Legal(c, run) && nodes <= Elems(c.prefs) && i != j
    requires ReadyToWrite(c, Final(run), i, v) && ReadyToWrite(c, Final(run), j, w)
    ensures Legal(c, next) && Extends(next, run)
    ensures PairOn(c, Final(run), Final(next), i, v, j, w, nodes)
  {
    var half := WriteTo(c, run, i, nodes, v);
    assert Final(half).ops[j] == Final(run).ops[j];
    next := WriteTo(c, half, j, nodes, w);
    ExtendsTransitive(run, half, next);
    PairFromBoth(c, Final(run), Final(half), Final(next), i, v, j, w, nodes);
  }

  /** A new operation, a put if there is a value, reads from `a` and `b`. */
  lemma {:induction false} ReadTwo(c: Config, run: Run, id: OpId, p: NodeId, value: Option<Value>, a: NodeId, b: NodeId)
    returns (next: Run)
    requires TwoOf(c, a, b) && Legal(c, run) && id !in Final(run).ops
    ensures Legal(c, next) && Extends(next, run)
    ensures var s, s' := Final(run), Final(next);
            && s'.ops.Keys == s.ops.Keys + {id} && s' == SetOp(s, id, s'.ops[id])
            && s'.ops[id].phase.Reading? && s'.ops[id].value == value && s'.ops[id].coordinator == p
            && s'.ops[id].ackedBefore == AckedOps(c, s)
            && |s'.ops[id].collected| == 2 && Replies(s'.ops[id]) == [Rep(s, a), Rep(s, b)]
  {
    assert Elems([a, b]) == {a, b};
    next := ReadBy(c, run, id, p, value, [a, b]);
    assert Replied(Final(run), [a, b]) == [Rep(Final(run), a), Rep(Final(run), b)];
  }

  lemma {:induction false} SingleVersionRead(v: Version)
    ensures MergedReplies([[v], [v]]) == [v]
  {
    assert Leq(v.clock, v.clock);
    var replies := [[v], [v]];
    assert replies[..1] == [[v]] && replies[..1][..0] == [];
    assert Flatten(replies[..1]) == [v];
    assert Flatten(replies) == [v, v];
    assert [v, v][..1] == [v] && [v][..0] == [];
    assert Fold([], [v]) == [v];
  }

  lemma {:induction false} OneOfTwoRead(v: Version)
    ensures MergedReplies([[v], []]) == [v]
  {
    var replies := [[v], []];
    assert replies[..1] == [[v]] && replies[..1][..0] == [];
    assert Flatten(replies[..1]) == [v];
    assert Flatten(replies) == [v] + [];
    assert Flatten(replies) == [v] && [v][..0] == [];
    assert Fold([], [v]) == Reconciled(Fold([], []), v);
  }

  lemma {:induction false} FirstVersion(p: NodeId, x: Value)
    ensures NextVersion(p, x, [[], []]) == Version(x, map[p := 1])
    ensures Reconciled([], Version(x, map[p := 1])) == [Version(x, map[p := 1])]
  {
    var none: seq<seq<Version>> := [[], []];
    assert none[..1] == [[]] && none[..1][..0] == [];
    assert Flatten(none[..1]) == [];
    assert Flatten(none) == [];
    assert MergedReplies(none) == [];
    assert Clocks([]) == [];
  }

  lemma {:induction false} ConcurrentPair(p: NodeId, q: NodeId, x: Value, y: Value)
    requires p != q
    ensures var v, w := Version(x, map[p := 1]), Version(y, map[q := 1]);
            !Leq(v.clock, w.clock) && !Leq(w.clock, v.clock) && Reconciled([v], w) == [v, w]
  {
    var v, w := Version(x, map[p := 1]), Version(y, map[q := 1]);
    assert Get(v.clock, p) == 1 && Get(w.clock, p) == 0 && Get(w.clock, q) == 1 && Get(v.clock, q) == 0;
    assert [v][..0] == [];
    assert Survivors([v], w.clock) == [v];
  }

  // ----- conflicts

  /** Two puts start and both read before either writes. */
  lemma {:induction false} BothRead(c: Config, a: NodeId, b: NodeId, p: NodeId, q: NodeId, x: Value, y: Value)
    returns (run: Run)
    requires TwoOf(c, a, b)
    ensures Legal(c, run)
    ensures var s := Final(run);
            && s.ops.Keys == {0, 1} && s.replicas == map[] && s.hints == map[] && s.flush.None? && s.lost == {}
            && ReadNothing(s, 0, p, x) && ReadNothing(s, 1, q, y)
  {
    run := ReadTwo(c, Start, 0, p, Some(x), a, b);
    run := ReadTwo(c, run, 1, q, Some(y), a, b);
  }

  /** Then both write to the same two replicas and are acknowledged. */
  lemma {:induction false} BothWrite(c: Config, a: NodeId, b: NodeId, p: NodeId, q: NodeId, x: Value, y: Value)
    returns (run: Run)
    requires TwoOf(c, a, b)
    ensures Legal(c, run) && Final(run).ops.Keys == {0, 1}
    ensures BothWritten(c, Final(run), p, q, x, y)
    ensures var siblings := Reconciled([Version(x, map[p := 1])], Version(y, map[q := 1]));
            Rep(Final(run), a) == siblings && Rep(Final(run), b) == siblings
  {
    var read := BothRead(c, a, b, p, q, x, y);
    FirstReady(c, Final(read), 0, p, x);
    FirstReady(c, Final(read), 1, q, y);
    PairIsQuorum(c, a, b);
    run := WriteBothTo(c, read, 0, Version(x, map[p := 1]), 1, Version(y, map[q := 1]), {a, b});
  }

  /** Puts 0 and 1 are acknowledged, each with the first version of its coordinator. */
  ghost predicate BothWritten(c: Config, s: State, p: NodeId, q: NodeId, x: Value, y: Value) {
    && IsAcked(c, s, 0) && VersionOf(s, 0) == Version(x, map[p := 1]) && s.ops[0].coordinator == p
    && IsAcked(c, s, 1) && VersionOf(s, 1) == Version(y, map[q := 1]) && s.ops[1].coordinator == q
  }

  /** And a read starts after both were acknowledged. */
  lemma {:induction false} OverlappingPuts(c: Config, a: NodeId, b: NodeId, p: NodeId, q: NodeId, x: Value, y: Value)
    returns (run: Run)
    requires TwoOf(c, a, b)
    ensures Legal(c, run) && BothWritten(c, Final(run), p, q, x, y)
    ensures 2 in Final(run).ops && {0, 1} <= Final(run).ops[2].ackedBefore
    ensures var siblings := Reconciled([Version(x, map[p := 1])], Version(y, map[q := 1]));
            Replies(Final(run).ops[2]) == [siblings, siblings]
  {
    var written := BothWrite(c, a, b, p, q, x, y);
    run := ReadTwo(c, written, 2, p, None, a, b);
    assert Final(run).ops[0] == Final(written).ops[0] && Final(run).ops[1] == Final(written).ops[1];
  }

  /** R + W > N does not rule out conflicts between puts that overlap in time: for any
      two coordinators both puts are acknowledged and a later read answers with a conflict. */
  lemma {:induction false} ConflictDespiteOverlap(c: Config, a: NodeId, b: NodeId, p: NodeId, q: NodeId, x: Value,
                                                  y: Value)
    returns (run: Run)
    requires TwoOf(c, a, b) && Overlapping(c) && p != q
    ensures Legal(c, run) && IsAcked(c, Final(run), 0) && IsAcked(c, Final(run), 1)
    ensures 2 in Final(run).ops
    ensures ReadResponse(Replies(Final(run).ops[2]), ReadThreshold(c)).Conflict?
  {
    run := OverlappingPuts(c, a, b, p, q, x, y);
    ConcurrentPair(p, q, x, y);
    var replies := Replies(Final(run).ops[2]);
    assert replies[0] == [Version(x, map[p := 1]), Version(y, map[q := 1])];
    AnswersConflict(replies, ReadThreshold(c), p, q, x, y);
  }

  /** Replies that hold the first version of each of two coordinators, and no other. */
  lemma {:induction false} AnswersConflict(replies: seq<seq<Version>>, threshold: nat, p: NodeId, q: NodeId, x: Value,
                                           y: Value)
    requires p != q && |replies| == 2 && threshold == 2
    requires var v, w := Version(x, map[p := 1]), Version(y, map[q := 1]);
             && (v in replies[0] || v in replies[1]) && (w in replies[0] || w in replies[1])
             && (forall u :: u in replies[0] || u in replies[1] ==> u == v || u == w)
    ensures ReadResponse(replies, threshold).Conflict?
  {
    var v, w := Version(x, map[p := 1]), Version(y, map[q := 1]);
    ConcurrentPair(p, q, x, y);
    FlattenMembers(replies);
    var all := Flatten(replies);
    assert v in all && w in all;
    forall u | u in all
      ensures u == v || u == w
    {
      var i :| 0 <= i < |replies| && u in replies[i];
    }
    assert MaximalIn(v, Elems(all)) && MaximalIn(w, Elems(all));
    ReadResponseMeaning(replies, threshold);
  }

  /** Three replicas, no spare node, quorums of two. */
  ghost predicate ThreeOnly(c: Config, a: NodeId, b: NodeId, t: NodeId) {
    && TwoOf(c, a, b) && Elems(c.prefs) == {a, b, t} && t != a && t != b && c.spare.None?
  }

  /** Put 0 reaches `a` only; its other writes fail, so its client got a 503 and
      nothing of it is left to arrive. */
  lemma {:induction false} FailedPut(c: Config, a: NodeId, b: NodeId, t: NodeId, p: NodeId, x: Value) returns (run: Run)
    requires ThreeOnly(c, a, b, t)
    ensures Legal(c, run)
    ensures var s := Final(run);
            && s.ops.Keys == {0} && IsIssued(s, 0) && s.ops[0].coordinator == p
            && VersionOf(s, 0) == Version(x, map[p := 1])
            && !IsAcked(c, s, 0) && NothingOutstanding(s, 0)
            && Rep(s, a) == [Version(x, map[p := 1])] && Rep(s, b) == [] && Rep(s, t) == []
  {
    run := ReadTwo(c, Start, 0, p, Some(x), a, b);
    FirstReady(c, Final(run), 0, p, x);
    assert a in Elems(c.prefs);
    run := WriteTo(c, run, 0, {a}, Version(x, map[p := 1]));
  }

  /** Nor does R + W > N rule out conflicts between puts that do not overlap: put 0 is
      over before put 1 starts, but it was not acknowledged, and put 1 missed it. */
  lemma {:induction false} ConflictAfterFailedPut(c: Config, a: NodeId, b: NodeId, t: NodeId, p: NodeId, q: NodeId,
                                                  x: Value, y: Value)
    returns (middle: Run, run: Run)
    requires ThreeOnly(c, a, b, t) && Overlapping(c) && p != q
    ensures Legal(c, middle) && Legal(c, run) && Extends(run, middle)
    ensures IsIssued(Final(middle), 0) && 1 !in Final(middle).ops
    ensures NothingOutstanding(Final(middle), 0)
    ensures !IsAcked(c, Final(middle), 0)
    ensures IsAcked(c, Final(run), 1) && ReadsOwnPast(Final(run))
    ensures 2 in Final(run).ops
    ensures ReadResponse(Replies(Final(run).ops[2]), ReadThreshold(c)).Conflict?
  {
    middle := FailedPut(c, a, b, t, p, x);
    var after := PutElsewhere(c, middle, b, t, q, y);
    run := ReadTwo(c, after, 2, a, None, a, b);
    ExtendsTransitive(middle, after, run);
    assert Final(run).ops[0] == Final(middle).ops[0] && Final(run).ops[1] == Final(after).ops[1];
    DifferentCoordinators(Final(run));
    assert Replies(Final(run).ops[2]) == [[Version(x, map[p := 1])], [Version(y, map[q := 1])]];
    AnswersConflict([[Version(x, map[p := 1])], [Version(y, map[q := 1])]], 2, p, q, x, y);
  }

  lemma {:induction false} DifferentCoordinators(s: State)
    requires 0 in s.ops && 1 in s.ops && s.ops[0].coordinator != s.ops[1].coordinator
    requires forall o {:trigger IsIssued(s, o)} :: IsIssued(s, o) ==> o == 0 || o == 1
    ensures ReadsOwnPast(s)
  {}

  lemma {:induction false} ElsewhereOnly(c: Config, s: State, read: State, s': State, id: OpId, w: Version, b: NodeId,
                                         t: NodeId)
    requires id !in s.ops && id in read.ops && read == SetOp(s, id, read.ops[id])
    requires PutOn(c, read, s', id, w, {b, t})
    ensures s'.ops.Keys == s.ops.Keys + {id} && s'.ops[id].coordinator == read.ops[id].coordinator
    ensures Rep(s', b) == Reconciled(Rep(s, b), w) && Rep(s', t) == Reconciled(Rep(s, t), w)
    ensures forall u {:trigger Rep(s', u)} :: u != b && u != t ==> Rep(s', u) == Rep(s, u)
    ensures forall o {:trigger s'.ops[o]} :: o in s.ops ==> s'.ops[o] == s.ops[o]
  {
    assert forall u :: Rep(read, u) == Rep(s, u);
    assert forall o :: o in s.ops ==> read.ops[o] == s.ops[o];
  }

  /** Put 1 starts, reads two empty replicas, writes them and is acknowledged. */
  lemma {:induction false} PutElsewhere(c: Config, run: Run, b: NodeId, t: NodeId, q: NodeId, y: Value)
    returns (next: Run)
    requires TwoOf(c, b, t) && Legal(c, run) && 1 !in Final(run).ops
    requires Rep(Final(run), b) == [] && Rep(Final(run), t) == []
    ensures Legal(c, next) && Extends(next, run)
    ensures var s := Final(run); var s' := Final(next);
            var w := Version(y, map[q := 1]);
            && s'.ops.Keys == s.ops.Keys + {1} && IsAcked(c, s', 1) && s'.ops[1].coordinator == q
            && Rep(s', b) == [w] && Rep(s', t) == [w] && (forall u {:trigger Rep(s', u)} :: u != b && u != t ==>
                 Rep(s', u) == Rep(s, u))
            && forall o {:trigger s'.ops[o]} :: o in s.ops ==> s'.ops[o] == s.ops[o]
  {
    var read := ReadTwo(c, run, 1, q, Some(y), b, t);
    FirstReady(c, Final(read), 1, q, y);
    PairIsQuorum(c, b, t);
    next := WriteTo(c, read, 1, {b, t}, Version(y, map[q := 1]));
    ElsewhereOnly(c, Final(run), Final(read), Final(next), 1, Version(y, map[q := 1]), b, t);
    ExtendsTransitive(run, read, next);
  }

  /** Reads are regular at best, not atomic: in one reachable state, with R + W > N, a
      get returns a version and a get that starts after it returned finds nothing. */
  lemma {:induction false} LaterReadIsOlder(c: Config, a: NodeId, b: NodeId, t: NodeId, p: NodeId, x: Value)
    returns (middle: Run, run: Run)
    requires ThreeOnly(c, a, b, t) && Overlapping(c)
    ensures Legal(c, middle) && Legal(c, run) && Extends(run, middle)
    ensures IsIssued(Final(middle), 0) && 2 !in Final(middle).ops && 2 in Final(run).ops
    ensures 1 in Final(middle).ops
    ensures ReadResponse(Replies(Final(middle).ops[1]), ReadThreshold(c)) == Found(VersionOf(Final(middle), 0))
    ensures ReadResponse(Replies(Final(run).ops[2]), ReadThreshold(c)) == NotFound
  {
    var v := Version(x, map[p := 1]);
    var failed := FailedPut(c, a, b, t, p, x);
    middle := ReadTwo(c, failed, 1, a, None, a, b);
    OneOfTwoRead(v);
    FirstVersion(p, x);
    assert Replies(Final(middle).ops[1]) == [[v], []];
    run := ReadTwo(c, middle, 2, b, None, b, t);
    assert Replies(Final(run).ops[2]) == [[], []];
    FlattenMembers([[], []]);
    ReadResponseMeaning([[], []], 2);
  }

  // ----- reused counters

  /** What `ReadsOwnPast` rules out, first kind: two puts of one coordinator issue the
      same clock, both are acknowledged, and a later completed read returns one value
      without a trace of the other. */
  lemma {:induction false} ReusedClockLosesValue(c: Config, a: NodeId, b: NodeId, p: NodeId, x: Value, y: Value)
    returns (run: Run)
    requires TwoOf(c, a, b) && Overlapping(c) && x != y
    ensures Legal(c, run) && IsAcked(c, Final(run), 0) && IsAcked(c, Final(run), 1)
    ensures ClockOf(Final(run), 0) == ClockOf(Final(run), 1) && !ReadsOwnPast(Final(run))
    ensures 2 in Final(run).ops && 1 in Final(run).ops[2].ackedBefore
    ensures ReadResponse(Replies(Final(run).ops[2]), ReadThreshold(c)) == Found(VersionOf(Final(run), 0))
    ensures VersionOf(Final(run), 1) != VersionOf(Final(run), 0)
  {
    run := OverlappingPuts(c, a, b, p, p, x, y);
    var v, w := Version(x, map[p := 1]), Version(y, map[p := 1]);
    assert Leq(w.clock, v.clock) && Leq(v.clock, v.clock);
    assert v in [v];
    assert Reconciled([v], w) == [v];
    assert Replies(Final(run).ops[2]) == [[v], [v]];
    SingleVersionRead(v);
    assert SameCoordinator(Final(run), 0, 1);
    SharedCounter(c, run, 0, 1);
  }

  lemma {:induction false} SharedCounter(c: Config, run: Run, a: OpId, b: OpId)
    requires Legal(c, run) && SameCoordinator(Final(run), a, b) && Own(Final(run), a) == Own(Final(run), b)
    ensures !ReadsOwnPast(Final(run))
  {
    CountersDistinctIffOwnPastRead(c, run);
  }

  /** Put 0 of `p` has read and is still to write, put 1 of `q` is acknowledged, and put
      2 of `p` has read the version of put 1. */
  ghost predicate SlowStart(c: Config, s: State, p: NodeId, q: NodeId, x: Value, y: Value, z: Value) {
    var w := Version(y, map[q := 1]);
    && s.ops.Keys == {0, 1, 2} && ReadNothing(s, 0, p, x)
    && IsAcked(c, s, 1) && VersionOf(s, 1) == w && Replies(s.ops[1]) == [[], []]
    && s.ops[2].phase.Reading? && s.ops[2].value == Some(z) && s.ops[2].coordinator == p
    && |s.ops[2].collected| == 2 && Replies(s.ops[2]) == [[w], [w]]
  }

  lemma {:induction false} SlowPut(c: Config, a: NodeId, b: NodeId, p: NodeId, q: NodeId, x: Value, y: Value, z: Value)
    returns (run: Run)
    requires TwoOf(c, a, b)
    ensures Legal(c, run) && SlowStart(c, Final(run), p, q, x, y, z)
    ensures var w := Version(y, map[q := 1]); Rep(Final(run), a) == [w] && Rep(Final(run), b) == [w]
  {
    PairIsQuorum(c, a, b);
    var w := Version(y, map[q := 1]);
    var read := BothRead(c, a, b, p, q, x, y);
    FirstReady(c, Final(read), 1, q, y);
    var half := WriteTo(c, read, 1, {a, b}, w);
    SlowHalf(c, Final(read), Final(half), a, b, p, q, x, y);
    run := ReadTwo(c, half, 2, p, Some(z), a, b);
    assert Final(run).ops[0] == Final(half).ops[0] && Final(run).ops[1] == Final(half).ops[1];
  }

  lemma {:induction false} SlowHalf(c: Config, s: State, s': State, a: NodeId, b: NodeId, p: NodeId, q: NodeId,
                                    x: Value, y: Value)
    requires s.ops.Keys == {0, 1} && s.replicas == map[] && ReadNothing(s, 0, p, x) && ReadNothing(s, 1, q, y)
    requires PutOn(c, s, s', 1, Version(y, map[q := 1]), {a, b}) && |{a, b}| >= WriteThreshold(c)
    requires Reconciled([], Version(y, map[q := 1])) == [Version(y, map[q := 1])]
    ensures s'.ops.Keys == {0, 1} && ReadNothing(s', 0, p, x)
    ensures IsAcked(c, s', 1) && VersionOf(s', 1) == Version(y, map[q := 1]) && Replies(s'.ops[1]) == [[], []]
    ensures Rep(s', a) == [Version(y, map[q := 1])] && Rep(s', b) == [Version(y, map[q := 1])]
  {
    assert s'.ops[0] == s.ops[0];
    assert Rep(s, a) == [] && Rep(s, b) == [];
  }

  lemma {:induction false} SecondVersion(p: NodeId, q: NodeId, y: Value, z: Value)
    requires p != q
    ensures NextVersion(p, z, [[Version(y, map[q := 1])], [Version(y, map[q := 1])]]) == Version(z, map[q := 1, p := 1])
  {
    SingleVersionRead(Version(y, map[q := 1]));
    OneClock(Version(y, map[q := 1]));
    MergedOne(q);
    SecondCount(p, q);
  }

  lemma {:induction false} OneClock(v: Version)
    ensures Clocks([v]) == [v.clock]
  {}

  lemma {:induction false} SecondCount(p: NodeId, q: NodeId)
    requires p != q
    ensures Incremented(map[q := 1], p) == map[q := 1, p := 1]
  {}

  lemma {:induction false} MergedOne(q: NodeId)
    ensures Merged([map[q := 1]]) == map[q := 1]
  {
    assert [map[q := 1]][..0] == [];
    assert Join(map[], map[q := 1]) == map[q := 1];
  }

  /** The newer version replaces both that it dominates. */
  lemma {:induction false} SecondReplaces(p: NodeId, q: NodeId, x: Value, y: Value, z: Value)
    requires p != q
    ensures var v, w, u := Version(x, map[p := 1]), Version(y, map[q := 1]), Version(z, map[q := 1, p := 1]);
            Reconciled(Reconciled([w], v), u) == [u]
  {
    var v, w, u := Version(x, map[p := 1]), Version(y, map[q := 1]), Version(z, map[q := 1, p := 1]);
    ConcurrentPair(q, p, y, x);
    assert Get(u.clock, p) == 1 && Get(u.clock, q) == 1;
    assert Lt(v.clock, u.clock) && Lt(w.clock, u.clock);
    assert [w, v][..1] == [w] && [w][..0] == [];
    assert Survivors([w], u.clock) == [];
    assert Survivors([w, v], u.clock) == [];
  }

  /** Put 0 writes and is acknowledged, then put 2 is, whose version dominates it. */
  lemma {:induction false} SlowThenFast(c: Config, a: NodeId, b: NodeId, p: NodeId, q: NodeId, x: Value, y: Value,
                                        z: Value)
    returns (run: Run)
    requires TwoOf(c, a, b) && p != q
    ensures Legal(c, run) && SlowState(c, Final(run), p, q, x, y, z)
    ensures Final(run).ops.Keys == {0, 1, 2}
    ensures var u := Version(z, map[q := 1, p := 1]); Rep(Final(run), a) == [u] && Rep(Final(run), b) == [u]
  {
    SecondReplaces(p, q, x, y, z);
    PairIsQuorum(c, a, b);
    var slow := SlowPut(c, a, b, p, q, x, y, z);
    SlowReady(c, Final(slow), p, q, x, y, z);
    run := WriteBothTo(c, slow, 0, Version(x, map[p := 1]), 2, Version(z, map[q := 1, p := 1]), {a, b});
    SlowPair(c, Final(slow), Final(run), p, q, x, y, z, {a, b});
  }

  lemma {:induction false} SlowReady(c: Config, s: State, p: NodeId, q: NodeId, x: Value, y: Value, z: Value)
    requires SlowStart(c, s, p, q, x, y, z) && ReadThreshold(c) == 2 && p != q
    ensures ReadyToWrite(c, s, 0, Version(x, map[p := 1])) && ReadyToWrite(c, s, 2, Version(z, map[q := 1, p := 1]))
  {
    FirstVersion(p, x);
    SecondVersion(p, q, y, z);
  }

  lemma {:induction false} SlowPair(c: Config, s: State, s': State, p: NodeId, q: NodeId, x: Value, y: Value, z: Value,
                                    nodes: set<NodeId>)
    requires SlowStart(c, s, p, q, x, y, z) && |nodes| >= WriteThreshold(c)
    requires PairOn(c, s, s', 0, Version(x, map[p := 1]), 2, Version(z, map[q := 1, p := 1]), nodes)
    ensures SlowState(c, s', p, q, x, y, z)
  {
    assert s'.ops[1] == s.ops[1];
  }

  /** Only put 1 was read by put 2, and nothing by put 1. */
  lemma {:induction false} SlowIsUnseen(s: State, p: NodeId, q: NodeId, x: Value, y: Value)
    requires p != q && IsIssued(s, 0) && IsIssued(s, 1) && IsIssued(s, 2)
    requires forall o {:trigger IsIssued(s, o)} :: IsIssued(s, o) ==> o in {0, 1, 2}
    requires VersionOf(s, 0) == Version(x, map[p := 1]) && VersionOf(s, 1) == Version(y, map[q := 1])
    requires ClockOf(s, 2) == map[q := 1, p := 1]
    requires Replies(s.ops[1]) == [[], []]
    requires Replies(s.ops[2]) == [[Version(y, map[q := 1])], [Version(y, map[q := 1])]]
    ensures !Precedes(s, false, 0, 2)
  {
    assert Get(map[p := 1], p) == 1 && Get(map[q := 1], p) == 0 && Get(map[q := 1, p := 1], p) == 1;
    forall path | Path(s, false, path) && path[0] == 0
      ensures path[|path| - 1] != 2
    {
      var k := |path| - 2;
      assert Edge(s, false, path[k], path[k + 1]);
      assert k > 0 ==> Edge(s, false, path[k - 1], path[k]);
    }
  }

  /** What `ReadsOwnPast` rules out, second kind: the clocks differ, but put 2 reuses the
      counter of put 0, which it never saw. Every put is acknowledged, and put 2 erases
      put 0 as if it had superseded it. */
  lemma {:induction false} UnseenPutIsDominated(c: Config, a: NodeId, b: NodeId, p: NodeId, q: NodeId, x: Value,
                                                y: Value, z: Value)
    returns (run: Run)
    requires TwoOf(c, a, b) && Overlapping(c) && p != q
    ensures Legal(c, run) && IsAcked(c, Final(run), 0) && IsAcked(c, Final(run), 1) && IsAcked(c, Final(run), 2)
    ensures !SameClock(ClockOf(Final(run), 0), ClockOf(Final(run), 2))
    ensures !Precedes(Final(run), false, 0, 2) && !ReadsOwnPast(Final(run))
    ensures 3 in Final(run).ops && 0 in Final(run).ops[3].ackedBefore
    ensures ReadResponse(Replies(Final(run).ops[3]), ReadThreshold(c)) == Found(VersionOf(Final(run), 2))
  {
    var slow := SlowThenFast(c, a, b, p, q, x, y, z);
    run := ReadTwo(c, slow, 3, p, None, a, b);
    SingleVersionRead(Version(z, map[q := 1, p := 1]));
    SlowStays(c, Final(slow), Final(run), p, q, x, y, z);
    SlowIsDominated(c, run, p, q, x, y, z);
  }

  ghost predicate SlowState(c: Config, s: State, p: NodeId, q: NodeId, x: Value, y: Value, z: Value) {
    var v, w, u := Version(x, map[p := 1]), Version(y, map[q := 1]), Version(z, map[q := 1, p := 1]);
    && (forall o {:trigger IsIssued(s, o)} :: IsIssued(s, o) ==> o in {0, 1, 2})
    && IsAcked(c, s, 0) && VersionOf(s, 0) == v && s.ops[0].coordinator == p
    && IsAcked(c, s, 1) && VersionOf(s, 1) == w && Replies(s.ops[1]) == [[], []]
    && IsAcked(c, s, 2) && VersionOf(s, 2) == u && s.ops[2].coordinator == p && Replies(s.ops[2]) == [[w], [w]]
  }

  lemma {:induction false} SlowStays(c: Config, s: State, s': State, p: NodeId, q: NodeId, x: Value, y: Value, z: Value)
    requires SlowState(c, s, p, q, x, y, z) && s.ops.Keys == {0, 1, 2}
    requires 3 in s'.ops && s' == SetOp(s, 3, s'.ops[3]) && !IsIssued(s', 3)
    ensures SlowState(c, s', p, q, x, y, z)
  {
    assert s'.ops[0] == s.ops[0] && s'.ops[1] == s.ops[1] && s'.ops[2] == s.ops[2];
    forall o | IsIssued(s', o)
      ensures o in {0, 1, 2}
    {
      assert o == 3 || o in s.ops.Keys;
    }
  }

  lemma {:induction false} SlowIsDominated(c: Config, run: Run, p: NodeId, q: NodeId, x: Value, y: Value, z: Value)
    requires p != q && Legal(c, run) && SlowState(c, Final(run), p, q, x, y, z)
    ensures !SameClock(ClockOf(Final(run), 0), ClockOf(Final(run), 2))
    ensures !Precedes(Final(run), false, 0, 2) && !ReadsOwnPast(Final(run))
  {
    var s := Final(run);
    assert Get(map[p := 1], q) == 0 && Get(map[q := 1, p := 1], q) == 1;
    SlowIsUnseen(s, p, q, x, y);
    assert SameCoordinator(s, 0, 2);
    SharedCounter(c, run, 0, 2);
  }

  // ----- hints

  lemma {:induction false} KeepOne(nodes: seq<NodeId>, t: NodeId)
    requires Distinct(nodes)
    ensures KeepIn(nodes, {t}) == if t in nodes then [t] else []
  {
    if nodes != [] {
      var front, last := nodes[..|nodes| - 1], nodes[|nodes| - 1];
      KeepOne(front, t);
      assert nodes == front + [last];
    }
  }

  /** Two of three replicas answer, `t` is presumed down, and the spare node holds its hints. */
  ghost predicate ThirdDown(c: Config, a: NodeId, b: NodeId, t: NodeId, p: NodeId, q: NodeId) {
    && TwoOf(c, a, b) && Elems(c.prefs) == {a, b, t} && t != a && t != b
    && c.spare.Some? && c.spare.value != p && c.spare.value != q && p != t && q != t
  }

  /** A put with its read quorum reaches `a` and `b` and parks its version for `t`. */
  lemma {:induction false} WriteHinted(c: Config, run: Run, id: OpId, a: NodeId, b: NodeId, t: NodeId, v: Version)
    returns (next: Run)
    requires TwoOf(c, a, b) && Elems(c.prefs) == {a, b, t} && t != a && t != b && c.spare.Some?
    requires Legal(c, run) && ReadyToWrite(c, Final(run), id, v) && Final(run).ops[id].coordinator != t
    ensures Legal(c, next) && PutOn(c, Final(run), Final(next), id, v, {a, b})
    ensures var s, s' := Final(run), Final(next);
            && s'.lost == s.lost && Hints(s', t) == Reconciled(Hints(s, t), v)
            && forall u {:trigger Hints(s', u)} :: u != t ==> Hints(s', u) == Hints(s, u)
  {
    var net := Reaching({a, b});
    HintedTargets(c, a, b, t);
    next := PutWrites(c, run, id, {t}, net, [a, b]);
    LeavesOn(c, Final(run), Final(next), id, v, {a, b}, [a, b], [t]);
    LeavesHint(c, Final(run), Final(next), id, v, {a, b}, [a, b], t);
  }

  lemma {:induction false} LeavesHint(c: Config, s: State, s': State, id: OpId, v: Version, nodes: set<NodeId>,
                                      order: seq<NodeId>, t: NodeId)
    requires c.spare.Some? && PutLeaves(c, s, s', id, v, Reaching(nodes), order, [t])
    ensures s'.lost == s.lost && Hints(s', t) == Reconciled(Hints(s, t), v)
    ensures forall u {:trigger Hints(s', u)} :: u != t ==> Hints(s', u) == Hints(s, u)
  {
    assert Missed(c, s'.ops[id].coordinator, Reaching(nodes), id, Elems([t])) == {};
  }

  lemma {:induction false} HintedTargets(c: Config, a: NodeId, b: NodeId, t: NodeId)
    requires Distinct(c.prefs) && Elems(c.prefs) == {a, b, t} && a != b && t != a && t != b
    ensures Elems([a, b]) == {a, b} && Elems(c.prefs) - {t} == {a, b}
    ensures KeepIn(c.prefs, {t}) + Failed([a, b], Reaching({a, b}).ok) == [t]
  {
    assert t in Elems(c.prefs);
    KeepOne(c.prefs, t);
    assert [a, b][..1] == [a] && [a][..0] == [];
    assert Failed([a], Reaching({a, b}).ok) == [];
  }

  lemma {:induction false} HintsOfBoth(c: Config, s: State, s1: State, s2: State, v: Version, w: Version,
                                       nodes: set<NodeId>, t: NodeId)
    requires s.ops.Keys == {0, 1} && s.replicas == map[] && s.hints == map[] && t !in nodes
        && |nodes| >= WriteThreshold(c)
    requires PutOn(c, s, s1, 0, v, nodes) && PutOn(c, s1, s2, 1, w, nodes)
    requires Hints(s1, t) == Reconciled(Hints(s, t), v) && Hints(s2, t) == Reconciled(Hints(s1, t), w)
    requires Reconciled([], v) == [v]
    ensures s2.ops.Keys == {0, 1} && Rep(s2, t) == [] && Hints(s2, t) == Reconciled([v], w)
    ensures IsAcked(c, s2, 0) && IsAcked(c, s2, 1) && NothingOutstanding(s2, 0) && NothingOutstanding(s2, 1)
    ensures VersionOf(s2, 0) == v && VersionOf(s2, 1) == w
  {
    assert s2.ops[0] == s1.ops[0];
    assert Rep(s1, t) == Rep(s, t) == [];
  }

  /** Both puts do so, and nothing else is in flight. */
  lemma {:induction false} BothHinted(c: Config, a: NodeId, b: NodeId, t: NodeId, p: NodeId, q: NodeId, x: Value,
                                      y: Value)
    returns (run: Run)
    requires ThirdDown(c, a, b, t, p, q)
    ensures Legal(c, run)
    ensures var s := Final(run);
            && s.ops.Keys == {0, 1} && s.flush.None? && s.lost == {} && Rep(s, t) == []
            && IsAcked(c, s, 0) && IsAcked(c, s, 1) && NothingOutstanding(s, 0) && NothingOutstanding(s, 1)
            && VersionOf(s, 0) == Version(x, map[p := 1]) && VersionOf(s, 1) == Version(y, map[q := 1])
            && Hints(s, t) == Reconciled([Version(x, map[p := 1])], Version(y, map[q := 1]))
            && forall u {:trigger Hints(s, u)} :: u != t ==> Hints(s, u) == []
  {
    PairIsQuorum(c, a, b);
    var read := BothRead(c, a, b, p, q, x, y);
    FirstReady(c, Final(read), 0, p, x);
    FirstReady(c, Final(read), 1, q, y);
    var v, w := Version(x, map[p := 1]), Version(y, map[q := 1]);
    var half := WriteHinted(c, read, 0, a, b, t, v);
    assert Final(half).ops[1] == Final(read).ops[1];
    run := WriteHinted(c, half, 1, a, b, t, w);
    HintsOfBoth(c, Final(read), Final(half), Final(run), v, w, {a, b}, t);
  }

  /** The first of two hints is delivered and confirmed, which clears both. */
  lemma {:induction false} FlushFirst(c: Config, run: Run, t: NodeId, v: Version, w: Version) returns (next: Run)
    requires Legal(c, run) && c.spare.Some? && Final(run).flush.None? && Final(run).lost == {}
    requires Final(run).ops.Keys == {0, 1} && IsIssued(Final(run), 0) && IsIssued(Final(run), 1)
    requires VersionOf(Final(run), 0) == v && VersionOf(Final(run), 1) == w
    requires Hints(Final(run), t) == [v, w] && Rep(Final(run), t) == [] && !Leq(w.clock, v.clock)
    ensures Legal(c, next)
    ensures var s := Final(run);
            Final(next) == State(s.replicas[t := [v]], s.hints[t := []], s.ops, Some(Flush(t, [w], false)),
                                 Final(next).flushSent, {(1, t)})
            && (t, w) in Final(next).flushSent
  {
    var begun := Take(c, run, FlushStart(t));
    assert [v, w][1..] == [w];
    SecondIsDropped(Final(begun), t, v, w);
    next := Deliver(c, begun, t, [v, w], Confirmed);
  }

  /** Once `v` has landed, clearing both hints loses put 1 and nothing else. */
  lemma {:induction false} SecondIsDropped(s: State, t: NodeId, v: Version, w: Version)
    requires s.ops.Keys == {0, 1} && IsIssued(s, 0) && IsIssued(s, 1)
    requires VersionOf(s, 0) == v && VersionOf(s, 1) == w
    requires Hints(s, t) == [v, w] && Rep(s, t) == [] && !Leq(w.clock, v.clock)
    ensures Rep(StoreAt(s, t, v), t) == [v] && DroppedByClear(StoreAt(s, t, v), t) == {(1, t)}
  {
    var landed := StoreAt(s, t, v);
    assert Rep(landed, t) == [v] && Hints(landed, t) == [v, w];
    assert Leq(v.clock, v.clock) && Leq(w.clock, w.clock);
    assert v in [v] && v in [v, w] && w in [v, w];
    assert Covers([v], v.clock) && Covers([v, w], w.clock) && !Covers([v], w.clock);
  }

  /** A flush that gets one sibling confirmed and fails on the other ends in a quiet
      state that has not converged: `t` never learns of an acknowledged version. */
  lemma {:induction false} FlushBreaksConvergence(c: Config, a: NodeId, b: NodeId, t: NodeId, p: NodeId, q: NodeId,
                                                  x: Value, y: Value)
    returns (run: Run)
    requires ThirdDown(c, a, b, t, p, q) && p != q
    ensures Legal(c, run) && Quiet(c, Final(run)) && IsAcked(c, Final(run), 1)
    ensures Final(run).lost == {(1, t)}
    ensures !MaximalAntichain(Rep(Final(run), t), IssuedVersions(Final(run)))
  {
    var v, w := Version(x, map[p := 1]), Version(y, map[q := 1]);
    ConcurrentPair(p, q, x, y);
    var hinted := BothHinted(c, a, b, t, p, q, x, y);
    var half := FlushFirst(c, hinted, t, v, w);
    run := Deliver(c, half, t, [w], NotApplied);
    QuietAfter(c, Final(hinted), Final(run), t);
    assert t in Elems(c.prefs);
    NotConverged(c, run, t, v, w);
  }

  lemma {:induction false} NotConverged(c: Config, run: Run, t: NodeId, v: Version, w: Version)
    requires Legal(c, run) && t in c.prefs && Quiet(c, Final(run)) && (1, t) in Final(run).lost
    requires IsIssued(Final(run), 1) && VersionOf(Final(run), 1) == w
    requires Rep(Final(run), t) == [v] && !Leq(w.clock, v.clock)
    ensures !MaximalAntichain(Rep(Final(run), t), IssuedVersions(Final(run)))
  {
    assert !Covers(Rep(Final(run), t), w.clock);
    ConvergedIffNothingMissing(c, run, t);
  }

  lemma {:induction false} QuietAfter(c: Config, s: State, s': State, t: NodeId)
    requires s.ops.Keys == {0, 1} && IsIssued(s, 0) && IsIssued(s, 1) && NothingOutstanding(s, 0)
        && NothingOutstanding(s, 1)
    requires s'.ops == s.ops && s'.hints == s.hints[t := []]
    requires forall u {:trigger Hints(s, u)} :: u != t ==> Hints(s, u) == []
    ensures Quiet(c, s')
  {
    forall u
      ensures Hints(s', u) == []
    {
      assert u != t ==> Hints(s, u) == [];
    }
    forall o: OpId, u | IsIssued(s', o)
      ensures !Outstanding(WritingOf(s', o), u)
    {
      assert o in s.ops.Keys && WritingOf(s', o) == WritingOf(s, o);
      assert NothingOutstanding(s, o);
    }
  }
}
