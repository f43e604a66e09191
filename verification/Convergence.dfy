/** Where the replicas of a key end up, and that acknowledged writes stay visible. */
module Convergence {
  import opened Basics
  import opened VectorClocks
  import opened Antichains
  import opened Quorums
  import opened Replication
  import opened ReplicationFrame
  import opened ReplicationInvariant

  // ----- the global state

  /** In every reachable state each sibling list and each hint list is an antichain
      of versions some put actually issued. */
  lemma {:induction false} ReachableListsAreAntichains(c: Config, run: Run, t: NodeId)
    requires Legal(c, run)
    ensures Antichain(Rep(Final(run), t)) && Antichain(Hints(Final(run), t))
    ensures forall v :: v in Rep(Final(run), t) || v in Hints(Final(run), t) ==> v in IssuedVersions(Final(run))
  {
    InvariantHolds(c, run);
    var s := Final(run);
    forall v | v in Rep(s, t) || v in Hints(s, t)
      ensures v in IssuedVersions(s)
    {
      assert IsVersion(s, v);
    }
  }

  /** In every reachable state an issued version carries the value its client sent. */
  lemma {:induction false} IssuedValueIsClients(c: Config, run: Run, o: OpId)
    requires Legal(c, run) && IsIssued(Final(run), o)
    ensures Final(run).ops[o].value == Some(VersionOf(Final(run), o).value)
  {
    InvariantHolds(c, run);
    var op := Final(run).ops[o];
    assert WellFormedOp(c, op);
    NextVersionExact(op.coordinator, op.value.value, Replies(op), op.coordinator);
  }

  /** What a replica once covered it covers for the rest of the run. */
  lemma {:induction false} CoverageIsForever(c: Config, earlier: Run, later: Run, t: NodeId, clock: Clock)
    requires Legal(c, later) && Extends(later, earlier) && Legal(c, earlier)
    requires Covers(Rep(Final(earlier), t), clock)
    ensures Covers(Rep(Final(later), t), clock)
    decreases later
  {
    if later != earlier {
      CoverageIsForever(c, earlier, later.prev, t, clock);
      CoverageNeverShrinks(c, Final(later.prev), later.step, t, clock);
    }
  }

  /** In every reachable state an issued version is, for each replica of the key,
      covered there, on its way, parked as a hint, or recorded as lost. */
  lemma {:induction false} HintCoverageHolds(c: Config, run: Run, o: OpId, t: NodeId)
    requires Legal(c, run) && IsIssued(Final(run), o) && t in c.prefs
    ensures Accounted(Final(run), o, t)
  {
    InvariantHolds(c, run);
  }

  /** The ways a hint is lost: there is no spare node, a hint request to another node
      fails, or a flush clears hints its target does not cover. */
  ghost predicate LossEvent(c: Config, s: State, step: Step, o: OpId, t: NodeId) {
    || ((step.HintDown? || step.HintFailed?) && step.id == o && IsIssued(s, o)
        && (if step.HintFailed? then step.t == t else WritingOf(s, o).todo != [] && WritingOf(s, o).todo[0] == t)
        && (c.spare.None? || (!step.stored && c.spare != Some(s.ops[o].coordinator))))
    || (step.FlushOk? && s.flush.Some? && s.flush.value.target == t && IsIssued(s, o)
        && Covers(Hints(s, t), ClockOf(s, o)) && !Covers(Rep(s, t), ClockOf(s, o)))
  }

  lemma {:induction false} StepLoses(c: Config, s: State, step: Step, o: OpId, t: NodeId)
    requires Enabled(c, s, step) && (o, t) !in s.lost && (o, t) in Apply(c, s, step).lost
    ensures LossEvent(c, s, step, o, t)
  {}

  /** In any run, a recorded loss goes back to such an event earlier in that run. */
  lemma {:induction false} LossHasCause(c: Config, run: Run, o: OpId, t: NodeId) returns (at: Run)
    requires Legal(c, run) && (o, t) in Final(run).lost
    ensures at.Then? && Extends(run, at) && Legal(c, at)
    ensures LossEvent(c, Final(at.prev), at.step, o, t)
  {
    if (o, t) in Final(run.prev).lost {
      at := LossHasCause(c, run.prev, o, t);
    } else {
      StepLoses(c, Final(run.prev), run.step, o, t);
      at := run;
    }
  }

  /** A confirmation loses something exactly when some hint it clears, a sibling or an
      addition made meanwhile, is not covered by the target; otherwise the record of
      losses stays as it is, and a new loss is recorded only by such an event. */
  lemma {:induction false} FlushLosesIff(c: Config, run: Run)
    requires Legal(c, run) && Enabled(c, Final(run), FlushOk)
    ensures var s := Final(run);
            var t := s.flush.value.target;
            (exists o :: LossEvent(c, s, FlushOk, o, t)) <==>
            exists v :: v in Hints(s, t) && !Covers(Rep(s, t), v.clock)
    ensures var s, s' := Final(run), Apply(c, Final(run), FlushOk);
            && (!(exists o :: LossEvent(c, s, FlushOk, o, s.flush.value.target)) ==> s'.lost == s.lost)
            && forall o: OpId, u :: (o, u) in s'.lost ==> (o, u) in s.lost || LossEvent(c, s, FlushOk, o, u)
  {
    var s := Final(run);
    var t := s.flush.value.target;
    InvariantHolds(c, run);
    if o :| LossEvent(c, s, FlushOk, o, t) {
      var v :| v in Hints(s, t) && Leq(ClockOf(s, o), v.clock);
      if Covers(Rep(s, t), v.clock) {
        CoversDown(Rep(s, t), ClockOf(s, o), v.clock);
      }
    }
    if v :| v in Hints(s, t) && !Covers(Rep(s, t), v.clock) {
      assert IsVersion(s, v);
      var o :| IsIssued(s, o) && VersionOf(s, o) == v;
      assert Leq(v.clock, v.clock);
      assert LossEvent(c, s, FlushOk, o, t);
    }
    FlushRecords(c, s);
  }

  lemma {:induction false} FlushRecords(c: Config, s: State)
    requires Enabled(c, s, FlushOk)
    ensures forall o: OpId, u ::
              (o, u) in Apply(c, s, FlushOk).lost <==> (o, u) in s.lost || LossEvent(c, s, FlushOk, o, u)
  {}

  // ----- convergence

  /** Nothing is in flight towards the replicas and no hint is parked for them. */
  ghost predicate Quiet(c: Config, s: State) {
    && (forall o, t :: IsIssued(s, o) && t in c.prefs ==> !Outstanding(WritingOf(s, o), t))
    && (forall t :: t in c.prefs ==> Hints(s, t) == [])
  }

  /** In a quiet state a replica holds the maximal antichain of everything issued
      exactly when it has meanwhile received whatever was lost on the way to it. */
  lemma {:induction false} ConvergedIffNothingMissing(c: Config, run: Run, t: NodeId)
    requires Legal(c, run) && t in c.prefs && Quiet(c, Final(run))
    ensures var s := Final(run);
            MaximalAntichain(Rep(s, t), IssuedVersions(s)) <==>
            forall o: OpId :: IsIssued(s, o) && (o, t) in s.lost ==> Covers(Rep(s, t), ClockOf(s, o))
  {
    var s := Final(run);
    InvariantHolds(c, run);
    ReachableListsAreAntichains(c, run, t);
    if MaximalAntichain(Rep(s, t), IssuedVersions(s)) {
      forall o | IsIssued(s, o)
        ensures Covers(Rep(s, t), ClockOf(s, o))
      {
        assert VersionOf(s, o) in IssuedVersions(s);
        MaximalAntichainCovers(Rep(s, t), IssuedVersions(s), VersionOf(s, o));
      }
    }
    if forall o: OpId :: IsIssued(s, o) && (o, t) in s.lost ==> Covers(Rep(s, t), ClockOf(s, o)) {
      forall v | v in IssuedVersions(s)
        ensures Covers(Rep(s, t), v.clock)
      {
        var o :| IsIssued(s, o) && VersionOf(s, o) == v;
        assert Accounted(s, o, t);
      }
      CoveringAntichainIsMaximal(Rep(s, t), IssuedVersions(s));
    }
  }

  /** Convergence: in any run, once nothing is in flight and nothing was lost, all
      replicas of the key hold the same clocks, the maximal antichain of all issued versions. */
  lemma {:induction false} ReplicasConverge(c: Config, run: Run, t: NodeId, u: NodeId)
    requires Legal(c, run) && t in c.prefs && u in c.prefs
    requires Quiet(c, Final(run)) && Final(run).lost == {}
    ensures MaximalAntichain(Rep(Final(run), t), IssuedVersions(Final(run)))
    ensures SameClocks(Rep(Final(run), t), Rep(Final(run), u))
  {
    ConvergedIffNothingMissing(c, run, t);
    ConvergedIffNothingMissing(c, run, u);
    SameMaximalAntichain(Rep(Final(run), t), Rep(Final(run), u), IssuedVersions(Final(run)));
  }

  lemma {:induction false} SameMaximalAntichain(a: seq<Version>, b: seq<Version>, all: set<Version>)
    requires MaximalAntichain(a, all) && MaximalAntichain(b, all)
    ensures SameClocks(a, b)
  {
    forall v | v in a
      ensures Covers(b, v.clock)
    {
      assert MaximalIn(v, all);
      MaximalAntichainCovers(b, all, v);
    }
    forall v | v in b
      ensures Covers(a, v.clock)
    {
      assert MaximalIn(v, all);
      MaximalAntichainCovers(a, all, v);
    }
    MutualCoverSameClocks(a, b);
  }

  // ----- acknowledged writes stay visible

  /** With overlapping quorums a completed read covers every put that had been
      acknowledged when the read started. */
  lemma {:induction false} AckedIsVisible(c: Config, s: State, r: OpId, o: OpId)
    requires ValidConfig(c) && Overlapping(c) && Invariant(c, s)
    requires r in s.ops && o in s.ops[r].ackedBefore && ReadDone(c, s.ops[r])
    ensures IsAcked(c, s, o) && Covers(ReadResult(s.ops[r]), ClockOf(s, o))
  {
    var op := s.ops[r];
    assert Shown(c, s, r, o);
    assert WellFormedOp(c, op) && WellFormedOp(c, s.ops[o]);
    var readers, writers := Elems(op.collected), WritingOf(s, o).acks;
    DistinctSize(op.collected);
    ClampedQuorumsOverlap(c.prefs, c.r, c.w, readers, writers);
    var t :| t in readers && t in writers;
    var i :| 0 <= i < |op.collected| && op.collected[i] == t;
    assert Covers(op.served[t], ClockOf(s, o));
    MergedCoversReply(Replies(op), i, ClockOf(s, o));
  }

  lemma {:induction false} AckedPersists(c: Config, earlier: Run, later: Run, o: OpId)
    requires Legal(c, later) && Extends(later, earlier) && Legal(c, earlier)
    requires IsAcked(c, Final(earlier), o)
    ensures IsAcked(c, Final(later), o) && VersionOf(Final(later), o) == VersionOf(Final(earlier), o)
    decreases later
  {
    if later != earlier {
      AckedPersists(c, earlier, later.prev, o);
      IssuedPersists(c, Final(later.prev), later.step, o);
    }
  }

  /** `ackedBefore` means what its name says: whatever was acknowledged at an earlier
      point of the run is in the record of every operation started after that point. */
  lemma {:induction false} AckedBeforeIsRecorded(c: Config, earlier: Run, later: Run, o: OpId, r: OpId)
    requires Legal(c, later) && Extends(later, earlier) && Legal(c, earlier)
    requires IsAcked(c, Final(earlier), o)
    requires r !in Final(earlier).ops && r in Final(later).ops
    ensures o in Final(later).ops[r].ackedBefore
    decreases later
  {
    if later != earlier {
      var s := Final(later.prev);
      AckedBeforeChange(c, s, later.step, r);
      if r in s.ops {
        AckedBeforeIsRecorded(c, earlier, later.prev, o, r);
      } else {
        AckedPersists(c, earlier, later.prev, o);
      }
    }
  }

  /** No acknowledged write is lost: if a put is acknowledged at some point of a run,
      every read that starts after that point and reaches its quorum has a merged
      result with a clock that dominates or equals the acknowledged one. */
  lemma {:induction false} AckedWriteNeverLost(c: Config, earlier: Run, later: Run, o: OpId, r: OpId)
    requires ValidConfig(c) && Overlapping(c)
    requires Legal(c, later) && Extends(later, earlier) && Legal(c, earlier)
    requires IsAcked(c, Final(earlier), o)
    requires r !in Final(earlier).ops && r in Final(later).ops && ReadDone(c, Final(later).ops[r])
    ensures Covers(ReadResult(Final(later).ops[r]), ClockOf(Final(earlier), o))
  {
    InvariantHolds(c, later);
    AckedBeforeIsRecorded(c, earlier, later, o, r);
    AckedPersists(c, earlier, later, o);
    AckedIsVisible(c, Final(later), r, o);
  }

  /** The versions of a merged read are versions that were issued. */
  lemma {:induction false} ReadResultIssued(c: Config, s: State, r: OpId)
    requires Invariant(c, s) && r in s.ops
    ensures Antichain(ReadResult(s.ops[r])) && AllIssued(s, ReadResult(s.ops[r]))
  {
    var op := s.ops[r];
    MergedMembers(Replies(op));
    forall v | v in ReadResult(op)
      ensures IsVersion(s, v)
    {
      var i :| 0 <= i < |Replies(op)| && v in Replies(op)[i];
      assert WellFormedOp(c, op);
      var t := op.collected[i];
      assert t in op.served && v in op.served[t];
      assert AllIssued(s, op.served[t]);
    }
  }
}
