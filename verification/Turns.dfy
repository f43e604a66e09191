/** Scheduling disciplines for the puts of a coordinator, from all its clients together,
    and what they give. */
module Turns {
  import opened Basics
  import opened VectorClocks
  import opened Antichains
  import opened Quorums
  import opened Replication
  import opened ReplicationFrame
  import opened ReplicationInvariant
  import opened Convergence
  import opened Causality

  /** Of any two issued puts (of one coordinator, or of everyone), one was acknowledged
      before the other started. Puts that never issue a version do not matter, nor do
      reads, stragglers, hints and flushes. */
  ghost predicate IssuedInTurn(s: State, everyone: bool) {
    forall a, b {:trigger Rivals(s, everyone, a, b)} ::
      IsIssued(s, a) && IsIssued(s, b) && a != b && Rivals(s, everyone, a, b) ==>
        a in s.ops[b].ackedBefore || b in s.ops[a].ackedBefore
  }

  /** Acknowledged puts are read by the coordinator's next ones, given overlap. */
  lemma {:induction false} TurnsReadOwnPast(c: Config, run: Run)
    requires ValidConfig(c) && Overlapping(c) && Legal(c, run) && IssuedInTurn(Final(run), false)
    ensures ReadsOwnPast(Final(run))
  {
    var s := Final(run);
    InvariantHolds(c, run);
    forall a, b | SameCoordinator(s, a, b)
      ensures Covers(ReadResult(s.ops[b]), ClockOf(s, a)) || Covers(ReadResult(s.ops[a]), ClockOf(s, b))
    {
      assert WellFormedOp(c, s.ops[a]) && WellFormedOp(c, s.ops[b]);
      assert Rivals(s, false, a, b);
      if a in s.ops[b].ackedBefore {
        AckedIsVisible(c, s, b, a);
      } else {
        AckedIsVisible(c, s, a, b);
      }
    }
  }

  /** For a single put it is enough that the other puts of its coordinator keep clear of
      it: then its counter is not reused. */
  lemma {:induction false} AckedApartIsUnique(c: Config, run: Run, a: OpId)
    requires ValidConfig(c) && Overlapping(c) && Legal(c, run) && IsIssued(Final(run), a)
    requires forall b {:trigger SameCoordinator(Final(run), a, b)} :: SameCoordinator(Final(run), a, b) ==>
               a in Final(run).ops[b].ackedBefore || b in Final(run).ops[a].ackedBefore
    ensures Unique(Final(run), a)
  {
    var s := Final(run);
    InvariantHolds(c, run);
    forall b | SameCoordinator(s, a, b)
      ensures Own(s, b) != Own(s, a)
    {
      assert WellFormedOp(c, s.ops[a]) && WellFormedOp(c, s.ops[b]);
      if a in s.ops[b].ackedBefore {
        AckedIsVisible(c, s, b, a);
        CoveredMeansDominated(c, s, a, b);
      } else {
        AckedIsVisible(c, s, a, b);
        CoveredMeansDominated(c, s, b, a);
      }
    }
  }

  /** The put is over for its client: it gave up reading, or it was acknowledged. */
  predicate Settled(c: Config, s: State, o: OpId) {
    o in s.ops && (s.ops[o].phase.Aborted? || IsAcked(c, s, o))
  }

  predicate IsPut(s: State, o: OpId) {
    o in s.ops && s.ops[o].value.Some?
  }

  /** Puts that must not overlap: all of them, or those of one coordinator. */
  predicate Rivals(s: State, everyone: bool, a: OpId, b: OpId) {
    IsPut(s, a) && IsPut(s, b) && (everyone || s.ops[a].coordinator == s.ops[b].coordinator)
  }

  /** A put starts only once the earlier puts of its coordinator (or of everyone) are
      settled. Reads, stragglers, hints and flushes are unrestricted. */
  ghost predicate TakesTurns(c: Config, run: Run, everyone: bool) {
    match run
    case Start => true
    case Then(prev, step, _) =>
      && TakesTurns(c, prev, everyone)
      && (step.StartPut? ==>
            forall o {:trigger Settled(c, Final(prev), o)} ::
              IsPut(Final(prev), o) && (everyone || Final(prev).ops[o].coordinator == step.coordinator)
              ==> Settled(c, Final(prev), o))
  }

  predicate AbortedOp(s: State, o: OpId) {
    o in s.ops && s.ops[o].phase.Aborted?
  }

  ghost predicate Ordered(s: State, a: OpId, b: OpId)
    requires a in s.ops && b in s.ops
  {
    AbortedOp(s, a) || AbortedOp(s, b) || a in s.ops[b].ackedBefore || b in s.ops[a].ackedBefore
  }

  ghost predicate RivalsOrdered(s: State, everyone: bool) {
    forall a, b {:trigger Rivals(s, everyone, a, b)} :: a != b && Rivals(s, everyone, a, b) ==> Ordered(s, a, b)
  }

  lemma {:induction false} RivalsOrderedStep(c: Config, s: State, step: Step, everyone: bool)
    requires Enabled(c, s, step) && RivalsOrdered(s, everyone)
    requires step.StartPut? ==>
               forall o {:trigger Settled(c, s, o)} ::
                 IsPut(s, o) && (everyone || s.ops[o].coordinator == step.coordinator) ==> Settled(c, s, o)
    ensures RivalsOrdered(Apply(c, s, step), everyone)
  {
    var s' := Apply(c, s, step);
    forall a, b | a != b && Rivals(s', everyone, a, b)
      ensures Ordered(s', a, b)
    {
      OrderedStep(c, s, step, everyone, a, b);
    }
  }

  lemma {:induction false} NewPutIsStarted(c: Config, s: State, step: Step, o: OpId)
    requires Enabled(c, s, step) && IsPut(Apply(c, s, step), o) && o !in s.ops
    ensures step.StartPut? && step.id == o && Apply(c, s, step).ops[o].coordinator == step.coordinator
    ensures Apply(c, s, step).ops[o].ackedBefore == AckedOps(c, s)
  {
    if Touched(step) != Some(o) {
      OtherOpsUnchanged(c, s, step, o);
    }
  }

  lemma {:induction false} OrderedStep(c: Config, s: State, step: Step, everyone: bool, a: OpId, b: OpId)
    requires Enabled(c, s, step) && RivalsOrdered(s, everyone) && a != b
    requires step.StartPut? ==>
               forall o {:trigger Settled(c, s, o)} ::
                 IsPut(s, o) && (everyone || s.ops[o].coordinator == step.coordinator) ==> Settled(c, s, o)
    requires Rivals(Apply(c, s, step), everyone, a, b)
    ensures Ordered(Apply(c, s, step), a, b)
  {
    if a in s.ops && b in s.ops {
      OpsEvolve(c, s, step, a);
      OpsEvolve(c, s, step, b);
      assert Rivals(s, everyone, a, b);
    } else if a in s.ops {
      NewPutIsStarted(c, s, step, b);
      OpsEvolve(c, s, step, a);
      assert Settled(c, s, a);
    } else {
      NewPutIsStarted(c, s, step, a);
      if b in s.ops {
        OpsEvolve(c, s, step, b);
        assert Settled(c, s, b);
      } else {
        NewPutIsStarted(c, s, step, b);
      }
    }
  }

  lemma {:induction false} TurnsOrderRivals(c: Config, run: Run, everyone: bool)
    requires Legal(c, run) && TakesTurns(c, run, everyone)
    ensures RivalsOrdered(Final(run), everyone)
  {
    match run
    case Start =>
    case Then(prev, step, _) =>
      TurnsOrderRivals(c, prev, everyone);
      RivalsOrderedStep(c, Final(prev), step, everyone);
  }

  /** If no put of a coordinator (or of anyone) starts before the earlier ones are
      settled, whichever clients sent them, the issued puts are in turn. */
  lemma {:induction false} WaitingIssuesInTurn(c: Config, run: Run, everyone: bool)
    requires Legal(c, run) && TakesTurns(c, run, everyone)
    ensures IssuedInTurn(Final(run), everyone)
  {
    TurnsOrderRivals(c, run, everyone);
  }
}
