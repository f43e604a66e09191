/** Clocks against causality over whole runs: which puts saw which, and when the
    clock order says exactly that. */
module Causality {
  import opened Basics
  import opened VectorClocks
  import opened Antichains
  import opened Quorums
  import opened Replication
  import opened ReplicationFrame
  import opened ReplicationInvariant
  import opened Convergence

  /** Some reply the read of `b` collected contains the version of `a`. */
  ghost predicate SawVersion(s: State, a: OpId, b: OpId)
    requires IsIssued(s, a) && b in s.ops
  {
    exists i :: 0 <= i < |Replies(s.ops[b])| && VersionOf(s, a) in Replies(s.ops[b])[i]
  }

  /** `a` immediately precedes `b`: its version was read by `b`, or, if `acks` are
      counted too, it was acknowledged before `b` started. */
  ghost predicate Edge(s: State, acks: bool, a: OpId, b: OpId) {
    IsIssued(s, a) && IsIssued(s, b) && (SawVersion(s, a, b) || (acks && a in s.ops[b].ackedBefore))
  }

  ghost predicate Path(s: State, acks: bool, p: seq<OpId>) {
    |p| >= 2 && forall i :: 0 <= i < |p| - 1 ==> Edge(s, acks, p[i], p[i + 1])
  }

  /** The transitive closure of `Edge`. */
  ghost predicate Precedes(s: State, acks: bool, a: OpId, b: OpId) {
    exists p :: Path(s, acks, p) && p[0] == a && p[|p| - 1] == b
  }

  lemma {:induction false} LtTransitive(a: Clock, b: Clock, c: Clock)
    requires Lt(a, b) && Lt(b, c)
    ensures Lt(a, c)
  {
    LeqLt(a, b, c);
  }

  lemma {:induction false} EdgeDominates(c: Config, s: State, acks: bool, a: OpId, b: OpId)
    requires Invariant(c, s) && Edge(s, acks, a, b)
    requires acks ==> ValidConfig(c) && Overlapping(c)
    ensures Lt(ClockOf(s, a), ClockOf(s, b))
  {
    var op := s.ops[b];
    assert WellFormedOp(c, op);
    if SawVersion(s, a, b) {
      var i :| 0 <= i < |Replies(op)| && VersionOf(s, a) in Replies(op)[i];
      assert Leq(ClockOf(s, a), ClockOf(s, a));
      MergedCoversReply(Replies(op), i, ClockOf(s, a));
    } else {
      AckedIsVisible(c, s, b, a);
    }
    NextVersionDominates(op.coordinator, op.value.value, Replies(op), ClockOf(s, a));
  }

  ghost predicate Rises(s: State, a: OpId, b: OpId) {
    IsIssued(s, a) && IsIssued(s, b) && Lt(ClockOf(s, a), ClockOf(s, b))
  }

  ghost predicate EdgesRise(s: State, acks: bool) {
    forall a, b {:trigger Edge(s, acks, a, b)} :: Edge(s, acks, a, b) ==> Rises(s, a, b)
  }

  lemma {:induction false} PathFront(s: State, acks: bool, p: seq<OpId>)
    requires Path(s, acks, p) && |p| > 2
    ensures Path(s, acks, p[..|p| - 1])
  {
    var front := p[..|p| - 1];
    forall i | 0 <= i < |front| - 1
      ensures Edge(s, acks, front[i], front[i + 1])
    {
      assert Edge(s, acks, p[i], p[i + 1]);
    }
  }

  lemma {:induction false} PathRises(s: State, acks: bool, p: seq<OpId>)
    requires EdgesRise(s, acks) && Path(s, acks, p)
    ensures Rises(s, p[0], p[|p| - 1])
  {
    var k := |p| - 2;
    assert Edge(s, acks, p[k], p[k + 1]);
    if |p| > 2 {
      PathFront(s, acks, p);
      PathRises(s, acks, p[..k + 1]);
      LtTransitive(ClockOf(s, p[0]), ClockOf(s, p[k]), ClockOf(s, p[k + 1]));
    }
  }

  /** Causality implies dominance in every run. Reads alone need no assumption on the
      quorums; counting acknowledgements needs R + W > N. */
  lemma {:induction false} CausalityImpliesDominance(c: Config, run: Run, acks: bool, a: OpId, b: OpId)
    requires Legal(c, run) && Precedes(Final(run), acks, a, b)
    requires acks ==> ValidConfig(c) && Overlapping(c)
    ensures IsIssued(Final(run), a) && IsIssued(Final(run), b)
    ensures Lt(ClockOf(Final(run), a), ClockOf(Final(run), b))
  {
    var s := Final(run);
    InvariantHolds(c, run);
    forall d, e | Edge(s, acks, d, e)
      ensures Rises(s, d, e)
    {
      EdgeDominates(c, s, acks, d, e);
    }
    var p :| Path(s, acks, p) && p[0] == a && p[|p| - 1] == b;
    PathRises(s, acks, p);
  }

  // ----- where clock entries come from

  lemma {:induction false} MergedEntryVersion(vs: seq<Version>, node: NodeId) returns (v: Version)
    requires Get(Merged(Clocks(vs)), node) > 0
    ensures v in vs && Get(v.clock, node) == Get(Merged(Clocks(vs)), node)
  {
    var clock := MergedEntryHasSource(Clocks(vs), node);
    var i :| 0 <= i < |vs| && Clocks(vs)[i] == clock;
    v := vs[i];
  }

  lemma {:induction false} ResultVersionSeen(c: Config, s: State, n: OpId, v: Version) returns (o: OpId)
    requires Invariant(c, s) && n in s.ops && v in ReadResult(s.ops[n])
    ensures IsIssued(s, o) && VersionOf(s, o) == v && SawVersion(s, o, n)
  {
    ReadResultIssued(c, s, n);
    assert IsVersion(s, v);
    o :| IsIssued(s, o) && VersionOf(s, o) == v;
    MergedMembers(Replies(s.ops[n]));
  }

  /** A positive entry of a merged read comes from an issued version in one of the replies. */
  lemma {:induction false} EntrySource(c: Config, s: State, n: OpId, node: NodeId) returns (o: OpId)
    requires Invariant(c, s) && n in s.ops
    requires Get(Merged(Clocks(ReadResult(s.ops[n]))), node) > 0
    ensures IsIssued(s, o) && SawVersion(s, o, n)
    ensures Get(ClockOf(s, o), node) == Get(Merged(Clocks(ReadResult(s.ops[n]))), node)
  {
    var v := MergedEntryVersion(ReadResult(s.ops[n]), node);
    o := ResultVersionSeen(c, s, n, v);
  }

  /** Facts about the moment `n` issues its version. */
  ghost predicate Issues(c: Config, s: State, step: Step, n: OpId) {
    Enabled(c, s, step) && step.Issue? && step.id == n
  }

  lemma {:induction false} IssuedClock(c: Config, s: State, step: Step, n: OpId)
    requires Issues(c, s, step, n)
    ensures IsIssued(Apply(c, s, step), n)
    ensures ClockOf(Apply(c, s, step), n)
            == Incremented(Merged(Clocks(ReadResult(s.ops[n]))), s.ops[n].coordinator)
    ensures Apply(c, s, step).ops[n].coordinator == s.ops[n].coordinator
    ensures Apply(c, s, step).ops[n].ackedBefore == s.ops[n].ackedBefore
    ensures Replies(Apply(c, s, step).ops[n]) == Replies(s.ops[n])
  {}

  /** The entry of a put's clock for its own coordinator. */
  function Own(s: State, o: OpId): nat
    requires IsIssued(s, o)
  {
    Get(ClockOf(s, o), s.ops[o].coordinator)
  }

  /** Some put of `node` wrote exactly this counter and is below the clock. */
  ghost predicate Authored(s: State, node: NodeId, counter: nat, clock: Clock) {
    exists d :: IsIssued(s, d) && s.ops[d].coordinator == node && Own(s, d) == counter && Leq(ClockOf(s, d), clock)
  }

  /** Every positive entry of an issued clock was written by a put below that clock. */
  ghost predicate EntriesAuthored(s: State) {
    forall o, node {:trigger Authored(s, node, Get(ClockOf(s, o), node), ClockOf(s, o))} ::
      IsIssued(s, o) && Get(ClockOf(s, o), node) > 0 ==> Authored(s, node, Get(ClockOf(s, o), node), ClockOf(s, o))
  }

  lemma {:induction false} AuthoredPersists(c: Config, s: State, step: Step, node: NodeId, counter: nat, clock: Clock,
                                            above: Clock)
    requires Enabled(c, s, step) && Authored(s, node, counter, clock) && Leq(clock, above)
    ensures Authored(Apply(c, s, step), node, counter, above)
  {
    var d :| IsIssued(s, d) && s.ops[d].coordinator == node && Own(s, d) == counter && Leq(ClockOf(s, d), clock);
    IssuedPersists(c, s, step, d);
    OpsEvolve(c, s, step, d);
    LeqTransitive(ClockOf(s, d), clock, above);
  }

  lemma {:induction false} NewEntryAuthored(c: Config, s: State, step: Step, n: OpId, node: NodeId)
    requires Invariant(c, s) && EntriesAuthored(s) && Issues(c, s, step, n)
    requires IsIssued(Apply(c, s, step), n) && Get(ClockOf(Apply(c, s, step), n), node) > 0
    ensures Authored(Apply(c, s, step), node, Get(ClockOf(Apply(c, s, step), n), node), ClockOf(Apply(c, s, step), n))
  {
    var s' := Apply(c, s, step);
    IssuedClock(c, s, step, n);
    var clock := ClockOf(s', n);
    if node == s.ops[n].coordinator {
      assert Leq(clock, clock) && Own(s', n) == Get(clock, node);
    } else {
      var o := EntrySource(c, s, n, node);
      SeenIsBelow(c, s, n, o);
      LeqTransitive(ClockOf(s, o), Merged(Clocks(ReadResult(s.ops[n]))), clock);
      assert Authored(s, node, Get(ClockOf(s, o), node), ClockOf(s, o));
      AuthoredPersists(c, s, step, node, Get(ClockOf(s, o), node), ClockOf(s, o), clock);
    }
  }

  /** What a read saw is below the merge of its result. */
  lemma {:induction false} SeenIsBelow(c: Config, s: State, n: OpId, o: OpId)
    requires n in s.ops && IsIssued(s, o) && SawVersion(s, o, n)
    ensures Covers(ReadResult(s.ops[n]), ClockOf(s, o))
    ensures Leq(ClockOf(s, o), Merged(Clocks(ReadResult(s.ops[n]))))
  {
    var i :| 0 <= i < |Replies(s.ops[n])| && VersionOf(s, o) in Replies(s.ops[n])[i];
    assert Leq(ClockOf(s, o), ClockOf(s, o));
    MergedCoversReply(Replies(s.ops[n]), i, ClockOf(s, o));
    MergeBoundsCovered(ReadResult(s.ops[n]), ClockOf(s, o));
  }

  lemma {:induction false} EntriesAuthoredStep(c: Config, s: State, step: Step)
    requires Invariant(c, s) && EntriesAuthored(s) && Enabled(c, s, step)
    ensures EntriesAuthored(Apply(c, s, step))
  {
    var s' := Apply(c, s, step);
    forall o, node | IsIssued(s', o) && Get(ClockOf(s', o), node) > 0
      ensures Authored(s', node, Get(ClockOf(s', o), node), ClockOf(s', o))
    {
      if IsIssued(s, o) {
        IssuedPersists(c, s, step, o);
        var clock := ClockOf(s, o);
        assert Leq(clock, clock) && Authored(s, node, Get(clock, node), clock);
        AuthoredPersists(c, s, step, node, Get(clock, node), clock, clock);
      } else {
        NewlyIssued(c, s, step, o);
        NewEntryAuthored(c, s, step, o, node);
      }
    }
  }

  lemma {:induction false} EntriesAuthoredHolds(c: Config, run: Run)
    requires Legal(c, run)
    ensures EntriesAuthored(Final(run))
  {
    match run
    case Start =>
    case Then(prev, step, _) =>
      EntriesAuthoredHolds(c, prev);
      InvariantHolds(c, prev);
      EntriesAuthoredStep(c, Final(prev), step);
  }

  // ----- when counters are reused

  ghost predicate SameCoordinator(s: State, a: OpId, b: OpId) {
    IsIssued(s, a) && IsIssued(s, b) && a != b && s.ops[a].coordinator == s.ops[b].coordinator
  }

  /** No other put of `a`'s coordinator counted to the same number. */
  ghost predicate Unique(s: State, a: OpId)
    requires IsIssued(s, a)
  {
    forall b {:trigger SameCoordinator(s, a, b)} :: SameCoordinator(s, a, b) ==> Own(s, b) != Own(s, a)
  }

  /** Every put of `a`'s coordinator that counts at least as far as `a` read it (or a
      version above it). The coordinator can test this at each of its reads. */
  ghost predicate ReadByLaterCounts(s: State, a: OpId)
    requires IsIssued(s, a)
  {
    forall b {:trigger SameCoordinator(s, a, b)} ::
      SameCoordinator(s, a, b) && Own(s, b) >= Own(s, a) ==> Covers(ReadResult(s.ops[b]), ClockOf(s, a))
  }

  /** Of any two puts of one coordinator, one read the other. */
  ghost predicate ReadsOwnPast(s: State) {
    forall a, b {:trigger SameCoordinator(s, a, b)} :: SameCoordinator(s, a, b) ==>
      Covers(ReadResult(s.ops[b]), ClockOf(s, a)) || Covers(ReadResult(s.ops[a]), ClockOf(s, b))
  }

  /** No coordinator ever counts to the same number twice. */
  ghost predicate OwnCountersDistinct(s: State) {
    forall a {:trigger IsIssued(s, a)} :: IsIssued(s, a) ==> Unique(s, a)
  }

  lemma {:induction false} OwnIsMergedPlusOne(c: Config, s: State, o: OpId)
    requires Invariant(c, s) && IsIssued(s, o)
    ensures Own(s, o) == Get(Merged(Clocks(ReadResult(s.ops[o]))), s.ops[o].coordinator) + 1
  {
    assert WellFormedOp(c, s.ops[o]);
  }

  lemma {:induction false} CoveredMeansDominated(c: Config, s: State, a: OpId, b: OpId)
    requires Invariant(c, s) && IsIssued(s, a) && IsIssued(s, b)
    requires Covers(ReadResult(s.ops[b]), ClockOf(s, a))
    ensures Lt(ClockOf(s, a), ClockOf(s, b))
    ensures s.ops[a].coordinator == s.ops[b].coordinator ==> Own(s, a) < Own(s, b)
  {
    assert WellFormedOp(c, s.ops[b]);
    NextVersionDominates(s.ops[b].coordinator, s.ops[b].value.value, Replies(s.ops[b]), ClockOf(s, a));
    OwnIsMergedPlusOne(c, s, b);
    MergeBoundsCovered(ReadResult(s.ops[b]), ClockOf(s, a));
    assert Get(ClockOf(s, a), s.ops[b].coordinator) <= Get(Merged(Clocks(ReadResult(s.ops[b]))), s.ops[b].coordinator);
  }

  /** The put that wrote the highest own counter `b` read, and a version that carried it. */
  lemma {:induction false} OwnPredecessor(c: Config, s: State, b: OpId) returns (d: OpId)
    requires Invariant(c, s) && EntriesAuthored(s) && IsIssued(s, b) && Own(s, b) > 1
    ensures IsIssued(s, d) && s.ops[d].coordinator == s.ops[b].coordinator && Own(s, d) == Own(s, b) - 1
    ensures Covers(ReadResult(s.ops[b]), ClockOf(s, d))
  {
    var node := s.ops[b].coordinator;
    OwnIsMergedPlusOne(c, s, b);
    var o := EntrySource(c, s, b, node);
    SeenIsBelow(c, s, b, o);
    assert Authored(s, node, Get(ClockOf(s, o), node), ClockOf(s, o));
    d :| IsIssued(s, d) && s.ops[d].coordinator == node && Own(s, d) == Own(s, b) - 1
        && Leq(ClockOf(s, d), ClockOf(s, o));
    CoversDown(ReadResult(s.ops[b]), ClockOf(s, d), ClockOf(s, o));
  }

  /** The reachable states, with the provenance of clock entries. */
  ghost predicate Traced(c: Config, s: State) {
    Invariant(c, s) && EntriesAuthored(s)
  }

  lemma {:induction false} TracedHolds(c: Config, run: Run)
    requires Legal(c, run)
    ensures Traced(c, Final(run))
  {
    InvariantHolds(c, run);
    EntriesAuthoredHolds(c, run);
  }

  /** A unique count is read by every higher count of its coordinator. */
  lemma {:induction false} HigherCountReads(c: Config, s: State, a: OpId, b: OpId)
    requires Traced(c, s) && SameCoordinator(s, a, b) && Unique(s, a) && Own(s, a) < Own(s, b)
    ensures Covers(ReadResult(s.ops[b]), ClockOf(s, a))
    decreases Own(s, b)
  {
    OwnIsMergedPlusOne(c, s, a);
    var d := OwnPredecessor(c, s, b);
    if d != a {
      assert SameCoordinator(s, a, d);
      HigherCountReads(c, s, a, d);
      CoveredMeansDominated(c, s, a, d);
      CoversDown(ReadResult(s.ops[b]), ClockOf(s, a), ClockOf(s, d));
    }
  }

  /** Exactly when the counter of a put is not reused, in any run and for any quorums. */
  lemma {:induction false} UniqueIffReadByLaterCounts(c: Config, run: Run, a: OpId)
    requires Legal(c, run) && IsIssued(Final(run), a)
    ensures Unique(Final(run), a) <==> ReadByLaterCounts(Final(run), a)
  {
    var s := Final(run);
    TracedHolds(c, run);
    if Unique(s, a) {
      forall b | SameCoordinator(s, a, b) && Own(s, b) >= Own(s, a)
        ensures Covers(ReadResult(s.ops[b]), ClockOf(s, a))
      {
        HigherCountReads(c, s, a, b);
      }
    }
    if ReadByLaterCounts(s, a) {
      forall b | SameCoordinator(s, a, b)
        ensures Own(s, b) != Own(s, a)
      {
        if Own(s, b) >= Own(s, a) {
          CoveredMeansDominated(c, s, a, b);
        }
      }
    }
  }

  /** All counters of a run together: no coordinator counts to a number twice if and
      only if each reads its own past. */
  lemma {:induction false} CountersDistinctIffOwnPastRead(c: Config, run: Run)
    requires Legal(c, run)
    ensures OwnCountersDistinct(Final(run)) <==> ReadsOwnPast(Final(run))
  {
    var s := Final(run);
    TracedHolds(c, run);
    if OwnCountersDistinct(s) {
      forall a, b | SameCoordinator(s, a, b)
        ensures Covers(ReadResult(s.ops[b]), ClockOf(s, a)) || Covers(ReadResult(s.ops[a]), ClockOf(s, b))
      {
        assert Unique(s, a) && Unique(s, b) && SameCoordinator(s, b, a);
        if Own(s, a) < Own(s, b) {
          HigherCountReads(c, s, a, b);
        } else {
          HigherCountReads(c, s, b, a);
        }
      }
    }
    if ReadsOwnPast(s) {
      forall a, b | SameCoordinator(s, a, b)
        ensures Own(s, b) != Own(s, a)
      {
        if Covers(ReadResult(s.ops[b]), ClockOf(s, a)) {
          CoveredMeansDominated(c, s, a, b);
        } else {
          CoveredMeansDominated(c, s, b, a);
        }
      }
    }
  }

  /** So what follows for a put whose counter is not reused holds for all puts of such runs. */
  lemma {:induction false} OwnPastReadMakesUnique(c: Config, run: Run, a: OpId)
    requires Legal(c, run) && ReadsOwnPast(Final(run)) && IsIssued(Final(run), a)
    ensures Unique(Final(run), a)
  {
    CountersDistinctIffOwnPastRead(c, run);
  }

  // ----- then the clock order is exactly causality

  /** Whoever counts as many writes of `a`'s coordinator as `a` itself is at or above `a`. */
  lemma {:induction false} CountingMeansKnowing(c: Config, s: State, a: OpId, o: OpId)
    requires Traced(c, s) && IsIssued(s, a) && Unique(s, a) && IsIssued(s, o)
    requires Get(ClockOf(s, o), s.ops[a].coordinator) >= Own(s, a)
    ensures Leq(ClockOf(s, a), ClockOf(s, o))
  {
    var node := s.ops[a].coordinator;
    OwnIsMergedPlusOne(c, s, a);
    assert Authored(s, node, Get(ClockOf(s, o), node), ClockOf(s, o));
    var d :| IsIssued(s, d) && s.ops[d].coordinator == node
             && Own(s, d) == Get(ClockOf(s, o), node) && Leq(ClockOf(s, d), ClockOf(s, o));
    if d != a {
      assert SameCoordinator(s, a, d);
      HigherCountReads(c, s, a, d);
      CoveredMeansDominated(c, s, a, d);
      LeqTransitive(ClockOf(s, a), ClockOf(s, d), ClockOf(s, o));
    }
  }

  /** A put at or above a unique one read it. */
  lemma {:induction false} BelowIsRead(c: Config, s: State, a: OpId, b: OpId)
    requires Traced(c, s) && IsIssued(s, a) && Unique(s, a) && IsIssued(s, b) && a != b
    requires Leq(ClockOf(s, a), ClockOf(s, b))
    ensures Covers(ReadResult(s.ops[b]), ClockOf(s, a))
  {
    var node := s.ops[a].coordinator;
    assert Own(s, a) <= Get(ClockOf(s, b), node);
    if node == s.ops[b].coordinator {
      assert SameCoordinator(s, a, b);
      HigherCountReads(c, s, a, b);
    } else {
      assert WellFormedOp(c, s.ops[b]);
      OwnIsMergedPlusOne(c, s, a);
      var o := EntrySource(c, s, b, node);
      CountingMeansKnowing(c, s, a, o);
      SeenIsBelow(c, s, b, o);
      CoversDown(ReadResult(s.ops[b]), ClockOf(s, a), ClockOf(s, o));
    }
  }

  /** The issued puts strictly below `b`, to recurse on. */
  ghost function PutsBelow(s: State, b: OpId): set<OpId>
    requires IsIssued(s, b)
  {
    set o | o in s.ops && IsIssued(s, o) && Lt(ClockOf(s, o), ClockOf(s, b))
  }

  lemma {:induction false} PutsBelowShrinks(s: State, a: OpId, b: OpId)
    requires IsIssued(s, a) && IsIssued(s, b) && Lt(ClockOf(s, a), ClockOf(s, b))
    ensures PutsBelow(s, a) < PutsBelow(s, b)
  {
    forall o | o in PutsBelow(s, a)
      ensures o in PutsBelow(s, b)
    {
      LtTransitive(ClockOf(s, o), ClockOf(s, a), ClockOf(s, b));
    }
    assert a in PutsBelow(s, b) && a !in PutsBelow(s, a);
  }

  lemma {:induction false} BelowPrecedes(c: Config, s: State, a: OpId, b: OpId)
    requires Traced(c, s) && IsIssued(s, a) && Unique(s, a) && IsIssued(s, b) && a != b
    requires Leq(ClockOf(s, a), ClockOf(s, b))
    ensures Precedes(s, false, a, b)
    decreases PutsBelow(s, b)
  {
    BelowIsRead(c, s, a, b);
    var v :| v in ReadResult(s.ops[b]) && Leq(ClockOf(s, a), v.clock);
    var o := ResultVersionSeen(c, s, b, v);
    assert Edge(s, false, o, b);
    if o != a {
      EdgeDominates(c, s, false, o, b);
      PutsBelowShrinks(s, o, b);
      BelowPrecedes(c, s, a, o);
    }
    EdgeExtends(s, false, a, o, b);
  }

  lemma {:induction false} EdgeExtends(s: State, acks: bool, a: OpId, b: OpId, d: OpId)
    requires a == b || Precedes(s, acks, a, b)
    requires Edge(s, acks, b, d)
    ensures Precedes(s, acks, a, d)
  {
    if a == b {
      assert Path(s, acks, [a, d]);
    } else {
      var p :| Path(s, acks, p) && p[0] == a && p[|p| - 1] == b;
      var q := p + [d];
      forall i | 0 <= i < |q| - 1
        ensures Edge(s, acks, q[i], q[i + 1])
      {
        if i < |p| - 1 {
          assert q[i] == p[i] && q[i + 1] == p[i + 1];
        }
      }
      assert Path(s, acks, q);
    }
  }

  /** Exactness, for any quorums: strict dominance over the clock of a put whose counter
      was not reused is the transitive closure of reading. */
  lemma {:induction false} DominanceIsCausality(c: Config, run: Run, a: OpId, b: OpId)
    requires Legal(c, run) && IsIssued(Final(run), a) && IsIssued(Final(run), b)
    requires Unique(Final(run), a)
    ensures Lt(ClockOf(Final(run), a), ClockOf(Final(run), b)) <==> Precedes(Final(run), false, a, b)
  {
    var s := Final(run);
    if Precedes(s, false, a, b) {
      CausalityImpliesDominance(c, run, false, a, b);
    }
    if Lt(ClockOf(s, a), ClockOf(s, b)) {
      TracedHolds(c, run);
      BelowPrecedes(c, s, a, b);
    }
  }

  /** And no other put ever issues its clock. */
  lemma {:induction false} ClocksAreUnique(c: Config, run: Run, a: OpId, b: OpId)
    requires Legal(c, run) && IsIssued(Final(run), a) && IsIssued(Final(run), b)
    requires Unique(Final(run), a) && SameClock(ClockOf(Final(run), a), ClockOf(Final(run), b))
    ensures a == b
  {
    if a != b {
      TracedHolds(c, run);
      BelowPrecedes(c, Final(run), a, b);
      CausalityImpliesDominance(c, run, false, a, b);
    }
  }

  /** Hence two such versions are siblings, a conflict for a reader who sees both,
      exactly when neither put causally precedes the other. */
  lemma {:induction false} ConflictIffUnrelated(c: Config, run: Run, a: OpId, b: OpId)
    requires Legal(c, run) && IsIssued(Final(run), a) && IsIssued(Final(run), b) && a != b
    requires Unique(Final(run), a) && Unique(Final(run), b)
    ensures Compare(ClockOf(Final(run), a), ClockOf(Final(run), b)).Concurrent? <==>
            !Precedes(Final(run), false, a, b) && !Precedes(Final(run), false, b, a)
  {
    DominanceIsCausality(c, run, a, b);
    DominanceIsCausality(c, run, b, a);
    if SameClock(ClockOf(Final(run), a), ClockOf(Final(run), b)) {
      ClocksAreUnique(c, run, a, b);
    }
  }

  /** Among the puts whose versions `r` saw, none comes causally after `o`. */
  ghost predicate LatestSeen(s: State, r: OpId, o: OpId)
    requires r in s.ops
  {
    && IsIssued(s, o) && SawVersion(s, o, r)
    && forall u {:trigger Precedes(s, false, o, u)} :: IsIssued(s, u) && SawVersion(s, u, r) ==>
         !Precedes(s, false, o, u)
  }

  ghost predicate TwoLatestSeen(s: State, r: OpId)
    requires r in s.ops
  {
    exists a, b :: a != b && LatestSeen(s, r, a) && LatestSeen(s, r, b)
  }

  lemma {:induction false} SeenVersions(c: Config, s: State, r: OpId, v: Version) returns (o: OpId)
    requires Invariant(c, s) && r in s.ops && v in Flatten(Replies(s.ops[r]))
    ensures IsIssued(s, o) && VersionOf(s, o) == v && SawVersion(s, o, r)
  {
    var op := s.ops[r];
    FlattenMembers(Replies(op));
    var i :| 0 <= i < |Replies(op)| && v in Replies(op)[i];
    assert WellFormedOp(c, op);
    assert op.collected[i] in op.served && v in op.served[op.collected[i]];
    assert AllIssued(s, op.served[op.collected[i]]);
    assert IsVersion(s, v);
    o :| IsIssued(s, o) && VersionOf(s, o) == v;
  }

  lemma {:induction false} SeenIsInReplies(s: State, r: OpId, o: OpId)
    requires r in s.ops && IsIssued(s, o) && SawVersion(s, o, r)
    ensures VersionOf(s, o) in Flatten(Replies(s.ops[r]))
  {
    FlattenMembers(Replies(s.ops[r]));
  }

  /** No put the read saw had its counter reused. */
  ghost predicate SawUnique(s: State, r: OpId)
    requires r in s.ops
  {
    forall u {:trigger SawVersion(s, u, r)} :: IsIssued(s, u) && SawVersion(s, u, r) ==> Unique(s, u)
  }

  lemma {:induction false} LatestIsMaximal(c: Config, run: Run, r: OpId, o: OpId)
    requires Legal(c, run) && r in Final(run).ops
    requires LatestSeen(Final(run), r, o) && Unique(Final(run), o)
    ensures MaximalIn(VersionOf(Final(run), o), Elems(Flatten(Replies(Final(run).ops[r]))))
  {
    var s := Final(run);
    var all := Elems(Flatten(Replies(s.ops[r])));
    var v := VersionOf(s, o);
    InvariantHolds(c, run);
    SeenIsInReplies(s, r, o);
    forall w | w in all && Leq(v.clock, w.clock)
      ensures Leq(w.clock, v.clock)
    {
      var u := SeenVersions(c, s, r, w);
      DominanceIsCausality(c, run, o, u);
    }
  }

  lemma {:induction false} MaximalIsLatest(c: Config, run: Run, r: OpId, o: OpId)
    requires Legal(c, run) && r in Final(run).ops
    requires IsIssued(Final(run), o) && SawVersion(Final(run), o, r)
    requires MaximalIn(VersionOf(Final(run), o), Elems(Flatten(Replies(Final(run).ops[r]))))
    ensures LatestSeen(Final(run), r, o)
  {
    var s := Final(run);
    forall u | IsIssued(s, u) && SawVersion(s, u, r)
      ensures !Precedes(s, false, o, u)
    {
      SeenIsInReplies(s, r, u);
      if Precedes(s, false, o, u) {
        CausalityImpliesDominance(c, run, false, o, u);
      }
    }
  }

  /** A completed read answers with a conflict exactly when, among the puts it saw, two
      are causally latest. */
  lemma {:induction false} ReadConflictIffTwoLatest(c: Config, run: Run, r: OpId)
    requires Legal(c, run) && r in Final(run).ops && ReadDone(c, Final(run).ops[r])
    requires SawUnique(Final(run), r)
    ensures ReadResponse(Replies(Final(run).ops[r]), ReadThreshold(c)).Conflict? <==> TwoLatestSeen(Final(run), r)
  {
    var s := Final(run);
    var replies := Replies(s.ops[r]);
    var all := Elems(Flatten(replies));
    InvariantHolds(c, run);
    ReadResponseMeaning(replies, ReadThreshold(c));
    if TwoMaximal(all) {
      var v, w :| MaximalIn(v, all) && MaximalIn(w, all) && !SameClock(v.clock, w.clock);
      var a := SeenVersions(c, s, r, v);
      var b := SeenVersions(c, s, r, w);
      MaximalIsLatest(c, run, r, a);
      MaximalIsLatest(c, run, r, b);
      assert Leq(v.clock, v.clock);
      assert a != b;
    }
    if TwoLatestSeen(s, r) {
      var a, b :| a != b && LatestSeen(s, r, a) && LatestSeen(s, r, b);
      LatestIsMaximal(c, run, r, a);
      LatestIsMaximal(c, run, r, b);
      if SameClock(ClockOf(s, a), ClockOf(s, b)) {
        ClocksAreUnique(c, run, a, b);
      }
    }
  }

  lemma {:induction false} ReportedIsLatest(c: Config, run: Run, r: OpId, o: OpId, versions: seq<Version>)
    requires Legal(c, run) && r in Final(run).ops && IsIssued(Final(run), o) && SawVersion(Final(run), o, r)
    requires MaximalAntichain(versions, Elems(Flatten(Replies(Final(run).ops[r]))))
        && VersionOf(Final(run), o) in versions
    ensures LatestSeen(Final(run), r, o)
  {
    MaximalIsLatest(c, run, r, o);
  }

  lemma {:induction false} LatestIsReported(c: Config, run: Run, r: OpId, o: OpId, versions: seq<Version>)
    requires Legal(c, run) && r in Final(run).ops && LatestSeen(Final(run), r, o) && Unique(Final(run), o)
    requires MaximalAntichain(versions, Elems(Flatten(Replies(Final(run).ops[r]))))
    ensures VersionOf(Final(run), o) in versions
  {
    var s := Final(run);
    InvariantHolds(c, run);
    LatestIsMaximal(c, run, r, o);
    var v := MaximalIsRepresented(versions, Elems(Flatten(Replies(s.ops[r]))), VersionOf(s, o));
    var u := SeenVersions(c, s, r, v);
    ClocksAreUnique(c, run, o, u);
  }

  /** And then the client gets exactly the versions of the causally latest puts. */
  lemma {:induction false} ConflictReportsLatest(c: Config, run: Run, r: OpId, o: OpId)
    requires Legal(c, run) && r in Final(run).ops && SawUnique(Final(run), r)
    requires IsIssued(Final(run), o) && SawVersion(Final(run), o, r)
    requires ReadResponse(Replies(Final(run).ops[r]), ReadThreshold(c)).Conflict?
    ensures VersionOf(Final(run), o) in ReadResponse(Replies(Final(run).ops[r]), ReadThreshold(c)).versions <==>
            LatestSeen(Final(run), r, o)
  {
    var versions := ReadResponse(Replies(Final(run).ops[r]), ReadThreshold(c)).versions;
    ReadResponseMeaning(Replies(Final(run).ops[r]), ReadThreshold(c));
    if VersionOf(Final(run), o) in versions {
      ReportedIsLatest(c, run, r, o, versions);
    }
    if LatestSeen(Final(run), r, o) {
      LatestIsReported(c, run, r, o, versions);
    }
  }

  /** An acknowledged value survives as a value unless another put of its coordinator
      reused its counter: a later completed read contains the acknowledged version
      itself, or one whose put causally came after it. */
  lemma {:induction false} AckedValueNeverLost(c: Config, earlier: Run, later: Run, o: OpId, r: OpId)
    returns (v: Version, b: OpId)
    requires ValidConfig(c) && Overlapping(c)
    requires Legal(c, later) && Extends(later, earlier) && Legal(c, earlier)
    requires IsAcked(c, Final(earlier), o) && IsIssued(Final(later), o) && Unique(Final(later), o)
    requires r !in Final(earlier).ops && r in Final(later).ops && ReadDone(c, Final(later).ops[r])
    ensures v in ReadResult(Final(later).ops[r])
    ensures IsIssued(Final(later), b) && v == VersionOf(Final(later), b)
    ensures Final(later).ops[b].value == Some(v.value)
    ensures b == o || Precedes(Final(later), false, o, b)
  {
    var s := Final(later);
    AckedWriteNeverLost(c, earlier, later, o, r);
    AckedPersists(c, earlier, later, o);
    v :| v in ReadResult(s.ops[r]) && Leq(ClockOf(s, o), v.clock);
    TracedHolds(c, later);
    b := ResultVersionSeen(c, s, r, v);
    IssuedValueIsClients(c, later, b);
    if b != o {
      BelowPrecedes(c, s, o, b);
    }
  }

  /** No put whose version the replica holds had its counter reused. */
  ghost predicate HoldsUnique(s: State, t: NodeId) {
    forall o {:trigger VersionOf(s, o)} :: IsIssued(s, o) && VersionOf(s, o) in Rep(s, t) ==> Unique(s, o)
  }

  lemma {:induction false} HeldClockIsHeldVersion(c: Config, run: Run, t: NodeId, v: Version, w: Version)
    requires Legal(c, run) && HoldsUnique(Final(run), t) && v in Rep(Final(run), t)
    requires w in IssuedVersions(Final(run)) && SameClock(v.clock, w.clock)
    ensures v == w
  {
    var s := Final(run);
    ReachableListsAreAntichains(c, run, t);
    var a :| IsIssued(s, a) && VersionOf(s, a) == v;
    var b :| IsIssued(s, b) && VersionOf(s, b) == w;
    ClocksAreUnique(c, run, a, b);
  }

  /** Convergence then holds for whole versions, not only for clocks. Counters reused by
      puts that are superseded everywhere do not matter. */
  lemma {:induction false} ReplicasConvergeOnVersions(c: Config, run: Run, t: NodeId, u: NodeId)
    requires Legal(c, run) && HoldsUnique(Final(run), t)
    requires t in c.prefs && u in c.prefs && Quiet(c, Final(run)) && Final(run).lost == {}
    ensures Elems(Rep(Final(run), t)) == Elems(Rep(Final(run), u))
  {
    var s := Final(run);
    ReplicasConverge(c, run, t, u);
    ReachableListsAreAntichains(c, run, t);
    ReachableListsAreAntichains(c, run, u);
    forall v | v in Rep(s, t)
      ensures v in Rep(s, u)
    {
      assert HasClock(Rep(s, u), v.clock);
      var w :| w in Rep(s, u) && SameClock(w.clock, v.clock);
      HeldClockIsHeldVersion(c, run, t, v, w);
    }
    forall w | w in Rep(s, u)
      ensures w in Rep(s, t)
    {
      assert HasClock(Rep(s, t), w.clock);
      var v :| v in Rep(s, t) && SameClock(v.clock, w.clock);
      HeldClockIsHeldVersion(c, run, t, v, w);
    }
  }
}
