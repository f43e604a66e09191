/** Runs whose issued clocks form a chain, and the sequential ones among them, in which
    every put that issues a version is acknowledged before the next one starts, whoever
    coordinates it: such runs never show a conflict. */
module Sequential {
  import opened Basics
  import opened VectorClocks
  import opened Antichains
  import opened Quorums
  import opened Replication
  import opened ReplicationFrame
  import opened ReplicationInvariant
  import opened Convergence
  import opened Causality
  import opened Turns

  // ----- when the issued clocks form a chain

  /** Any two issued clocks are strictly ordered. */
  ghost predicate StrictChain(s: State) {
    forall a, b {:trigger IsIssued(s, a), IsIssued(s, b)} :: IsIssued(s, a) && IsIssued(s, b) && a != b ==>
      Lt(ClockOf(s, a), ClockOf(s, b)) || Lt(ClockOf(s, b), ClockOf(s, a))
  }

  ghost predicate HasRead(s: State, b: OpId, a: OpId) {
    IsIssued(s, a) && b in s.ops && Covers(ReadResult(s.ops[b]), ClockOf(s, a))
  }

  /** Of any two issued puts, one read the other (or a version above it). */
  ghost predicate EachReadsOther(s: State) {
    forall a, b {:trigger IsIssued(s, a), IsIssued(s, b)} ::
      IsIssued(s, a) && IsIssued(s, b) && a != b ==> HasRead(s, b, a) || HasRead(s, a, b)
  }

  /** A clock between another one and its increment at one node is one of the two. */
  lemma {:induction false} NothingBetween(low: Clock, x: Clock, node: NodeId)
    requires Leq(low, x) && Leq(x, Incremented(low, node))
    ensures SameClock(x, low) || SameClock(x, Incremented(low, node))
  {
    var high := Incremented(low, node);
    if Get(x, node) == Get(low, node) {
      forall k: NodeId
        ensures Get(x, k) <= Get(low, k)
      {
        assert k != node ==> Get(x, k) <= Get(high, k) == Get(low, k);
      }
    } else {
      forall k: NodeId
        ensures Get(high, k) <= Get(x, k)
      {
        assert Get(low, k) <= Get(x, k) && (k != node ==> Get(high, k) == Get(low, k));
      }
    }
  }

  /** In a chain a put read what is below it: its read returned at most one version, and
      its own clock is one count above that. */
  lemma {:induction false} ChainReads(c: Config, s: State, a: OpId, b: OpId)
    requires Invariant(c, s) && StrictChain(s) && IsIssued(s, a) && IsIssued(s, b)
    requires Lt(ClockOf(s, a), ClockOf(s, b))
    ensures HasRead(s, b, a)
  {
    var op, clock := s.ops[b], ClockOf(s, a);
    assert WellFormedOp(c, op);
    ReadResultSingle(c, s, b);
    var below := Merged(Clocks(ReadResult(op)));
    if ReadResult(op) == [] {
      assert below == map[];
      OwnIsMergedPlusOne(c, s, a);
      assert Get(clock, s.ops[a].coordinator) > Get(below, s.ops[a].coordinator);
      NothingBetween(below, clock, op.coordinator);
    } else {
      var v := ReadResult(op)[0];
      SingleMerge(v);
      assert ReadResult(op) == [v];
      ReadResultIssued(c, s, b);
      assert IsVersion(s, v);
      var m :| IsIssued(s, m) && VersionOf(s, m) == v;
      assert Leq(v.clock, v.clock);
      if !Leq(clock, v.clock) {
        assert a != m && Lt(v.clock, clock);
        SameMergeBounds(v, clock, op.coordinator);
        NothingBetween(below, clock, op.coordinator);
      }
    }
  }

  lemma {:induction false} SingleMerge(v: Version)
    ensures SameClock(Merged(Clocks([v])), v.clock)
  {
    MergedIsLeastUpperBound(Clocks([v]), v.clock);
    assert Clocks([v]) == [v.clock];
    assert v.clock in Clocks([v]) && Leq(v.clock, v.clock);
  }

  lemma {:induction false} SameMergeBounds(v: Version, clock: Clock, node: NodeId)
    requires Leq(v.clock, clock)
    ensures Leq(Merged(Clocks([v])), clock)
  {
    SingleMerge(v);
    LeqTransitive(Merged(Clocks([v])), v.clock, clock);
  }

  /** Exactly when the issued clocks form a strict chain, in any run and for any quorums:
      of any two puts that issue a version one has read the other. */
  lemma {:induction false} ChainIffEachReadsOther(c: Config, run: Run)
    requires Legal(c, run)
    ensures StrictChain(Final(run)) <==> EachReadsOther(Final(run))
  {
    var s := Final(run);
    InvariantHolds(c, run);
    if StrictChain(s) {
      forall a, b | IsIssued(s, a) && IsIssued(s, b) && a != b
        ensures HasRead(s, b, a) || HasRead(s, a, b)
      {
        if Lt(ClockOf(s, a), ClockOf(s, b)) {
          ChainReads(c, s, a, b);
        } else {
          ChainReads(c, s, b, a);
        }
      }
    }
    if EachReadsOther(s) {
      forall a, b | IsIssued(s, a) && IsIssued(s, b) && a != b
        ensures Lt(ClockOf(s, a), ClockOf(s, b)) || Lt(ClockOf(s, b), ClockOf(s, a))
      {
        if HasRead(s, b, a) {
          CoveredMeansDominated(c, s, a, b);
        } else {
          CoveredMeansDominated(c, s, b, a);
        }
      }
    }
  }

  lemma {:induction false} IssuedComparable(s: State, v: Version, w: Version)
    requires StrictChain(s) && IsVersion(s, v) && IsVersion(s, w)
    ensures Leq(v.clock, w.clock) || Leq(w.clock, v.clock)
  {
    var a :| IsIssued(s, a) && VersionOf(s, a) == v;
    var b :| IsIssued(s, b) && VersionOf(s, b) == w;
    assert Leq(v.clock, v.clock);
  }

  /** Issued versions that are pairwise concurrent are at most one. */
  lemma {:induction false} AntichainOfChain(s: State, vs: seq<Version>)
    requires StrictChain(s) && Antichain(vs) && AllIssued(s, vs)
    ensures |vs| <= 1
  {
    if |vs| > 1 {
      assert IsVersion(s, vs[0]) && IsVersion(s, vs[1]);
      IssuedComparable(s, vs[0], vs[1]);
    }
  }

  lemma {:induction false} ReadResultSingle(c: Config, s: State, r: OpId)
    requires Invariant(c, s) && StrictChain(s) && r in s.ops
    ensures |ReadResult(s.ops[r])| <= 1
  {
    ReadResultIssued(c, s, r);
    AntichainOfChain(s, ReadResult(s.ops[r]));
  }

  /** Such runs never conflict, for any quorums: every sibling list and hint list has at
      most one version, and no read answers with a conflict, at any time. */
  lemma {:induction false} ChainNeverConflicts(c: Config, run: Run, t: NodeId, r: OpId)
    requires Legal(c, run) && EachReadsOther(Final(run))
    ensures |Rep(Final(run), t)| <= 1 && |Hints(Final(run), t)| <= 1
    ensures r in Final(run).ops ==>
              !ReadResponse(Replies(Final(run).ops[r]), ReadThreshold(c)).Conflict?
  {
    var s := Final(run);
    InvariantHolds(c, run);
    ChainIffEachReadsOther(c, run);
    AntichainOfChain(s, Rep(s, t));
    AntichainOfChain(s, Hints(s, t));
    if r in s.ops {
      ReadResultSingle(c, s, r);
    }
  }

  // ----- sequential runs

  /** Of any two puts that issued, one was acknowledged before the other started.
      Stragglers, hints and flushes may land at any later time. */
  ghost predicate SequentialRun(c: Config, run: Run) {
    ValidConfig(c) && Overlapping(c) && Legal(c, run) && IssuedInTurn(Final(run), true)
  }

  /** An acknowledged put is read by every put that starts later. */
  lemma {:induction false} AckedIsRead(c: Config, s: State, a: OpId, b: OpId)
    requires ValidConfig(c) && Overlapping(c) && Invariant(c, s)
    requires IsIssued(s, b) && a in s.ops[b].ackedBefore
    ensures HasRead(s, b, a) && Lt(ClockOf(s, a), ClockOf(s, b))
  {
    assert WellFormedOp(c, s.ops[b]);
    AckedIsVisible(c, s, b, a);
    CoveredMeansDominated(c, s, a, b);
  }

  lemma {:induction false} SequentialReads(c: Config, run: Run)
    requires SequentialRun(c, run)
    ensures EachReadsOther(Final(run))
  {
    var s := Final(run);
    InvariantHolds(c, run);
    forall a, b | IsIssued(s, a) && IsIssued(s, b) && a != b
      ensures HasRead(s, b, a) || HasRead(s, a, b)
    {
      assert WellFormedOp(c, s.ops[a]) && WellFormedOp(c, s.ops[b]);
      assert Rivals(s, true, a, b);
      if a in s.ops[b].ackedBefore {
        AckedIsRead(c, s, a, b);
      } else {
        AckedIsRead(c, s, b, a);
      }
    }
  }

  /** `a` was acknowledged before `b` started, and its clock is strictly below. */
  ghost predicate Before(s: State, a: OpId, b: OpId) {
    IsIssued(s, a) && IsIssued(s, b) && a in s.ops[b].ackedBefore && Lt(ClockOf(s, a), ClockOf(s, b))
  }

  /** The issued clocks form a strict chain in the order of acknowledgement. */
  ghost predicate Chain(s: State) {
    forall a, b {:trigger Before(s, a, b)} ::
      IsIssued(s, a) && IsIssued(s, b) && a != b ==> Before(s, a, b) || Before(s, b, a)
  }

  /** Any two issued versions of a sequential run are strictly ordered, by the order of
      their puts. */
  lemma {:induction false} IssuedFormChain(c: Config, run: Run)
    requires SequentialRun(c, run)
    ensures StrictChain(Final(run)) && Chain(Final(run))
  {
    var s := Final(run);
    InvariantHolds(c, run);
    SequentialReads(c, run);
    ChainIffEachReadsOther(c, run);
    forall a, b | IsIssued(s, a) && IsIssued(s, b) && a != b
      ensures Before(s, a, b) || Before(s, b, a)
    {
      assert WellFormedOp(c, s.ops[a]) && WellFormedOp(c, s.ops[b]);
      assert Rivals(s, true, a, b);
      if a in s.ops[b].ackedBefore {
        AckedIsRead(c, s, a, b);
      } else {
        AckedIsRead(c, s, b, a);
      }
    }
  }

  /** So sequential runs never conflict. */
  lemma {:induction false} SequentialNeverConflicts(c: Config, run: Run, t: NodeId, r: OpId)
    requires SequentialRun(c, run)
    ensures |Rep(Final(run), t)| <= 1 && |Hints(Final(run), t)| <= 1
    ensures r in Final(run).ops ==>
              !ReadResponse(Replies(Final(run).ops[r]), ReadThreshold(c)).Conflict?
  {
    SequentialReads(c, run);
    ChainNeverConflicts(c, run, t, r);
  }

  /** No put is in progress for this reader: all issued versions were acknowledged
      before it started. */
  ghost predicate NoPutInProgress(s: State, r: OpId)
    requires r in s.ops
  {
    forall o: OpId :: IsIssued(s, o) ==> o in s.ops[r].ackedBefore
  }

  /** The read then yields a single version, that of some issued put. */
  lemma {:induction false} ReadIsSingleton(c: Config, s: State, r: OpId, some: OpId) returns (last: OpId)
    requires ValidConfig(c) && Overlapping(c) && Invariant(c, s) && StrictChain(s) && Chain(s)
    requires r in s.ops && ReadDone(c, s.ops[r]) && NoPutInProgress(s, r) && IsIssued(s, some)
    ensures IsIssued(s, last) && ReadResult(s.ops[r]) == [VersionOf(s, last)]
  {
    AckedIsVisible(c, s, r, some);
    ReadResultSingle(c, s, r);
    var version := ReadResult(s.ops[r])[0];
    last := ResultVersionSeen(c, s, r, version);
  }

  lemma {:induction false} EarlierThanRead(c: Config, s: State, r: OpId, last: OpId, o: OpId)
    requires ValidConfig(c) && Overlapping(c) && Invariant(c, s) && StrictChain(s) && Chain(s)
    requires r in s.ops && ReadDone(c, s.ops[r]) && NoPutInProgress(s, r)
    requires IsIssued(s, last) && ReadResult(s.ops[r]) == [VersionOf(s, last)]
    requires IsIssued(s, o) && o != last
    ensures o in s.ops[last].ackedBefore
  {
    AckedIsVisible(c, s, r, o);
    assert Leq(ClockOf(s, o), ClockOf(s, last));
    assert Before(s, o, last) || Before(s, last, o);
  }

  /** A completed read with no put in progress returns exactly the version of the last
      acknowledged put, value included: the one put started after all the others were
      acknowledged. */
  lemma {:induction false} SequentialReadsLatest(c: Config, run: Run, r: OpId) returns (last: OpId)
    requires SequentialRun(c, run)
    requires r in Final(run).ops && ReadDone(c, Final(run).ops[r]) && NoPutInProgress(Final(run), r)
    requires exists o :: IsIssued(Final(run), o)
    ensures IsAcked(c, Final(run), last)
    ensures forall o: OpId :: IsIssued(Final(run), o) && o != last ==> o in Final(run).ops[last].ackedBefore
    ensures ReadResponse(Replies(Final(run).ops[r]), ReadThreshold(c)) == Found(VersionOf(Final(run), last))
    ensures Final(run).ops[last].value == Some(VersionOf(Final(run), last).value)
  {
    var s := Final(run);
    InvariantHolds(c, run);
    IssuedFormChain(c, run);
    var some :| IsIssued(s, some);
    last := ReadIsSingleton(c, s, r, some);
    AckedIsVisible(c, s, r, last);
    IssuedValueIsClients(c, run, last);
    forall o: OpId | IsIssued(s, o) && o != last
      ensures o in s.ops[last].ackedBefore
    {
      EarlierThanRead(c, s, r, last, o);
    }
  }

  /** Before anything was issued, a completed read finds nothing. */
  lemma {:induction false} NothingIssuedNothingFound(c: Config, run: Run, r: OpId)
    requires Legal(c, run) && r in Final(run).ops && ReadDone(c, Final(run).ops[r])
    requires forall o: OpId :: !IsIssued(Final(run), o)
    ensures ReadResponse(Replies(Final(run).ops[r]), ReadThreshold(c)) == NotFound
  {
    var s := Final(run);
    InvariantHolds(c, run);
    ReadResultIssued(c, s, r);
    var result := ReadResult(s.ops[r]);
    assert result != [] ==> IsVersion(s, result[0]);
  }
}
