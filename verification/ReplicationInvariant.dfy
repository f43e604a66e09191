/** The invariants every reachable state of the replication protocol satisfies. */
module ReplicationInvariant {
  import opened Basics
  import opened VectorClocks
  import opened Antichains
  import opened Quorums
  import opened Replication
  import opened ReplicationFrame

  // ----- bookkeeping of one operation

  ghost predicate WellFormedWriting(c: Config, w: Writing) {
    && w.live <= Elems(c.prefs) && Elems(w.todo) <= Elems(c.prefs)
    && w.pending <= w.live && w.failing <= w.live
    && w.acks <= w.landed <= w.live
  }

  ghost predicate WellFormedOp(c: Config, op: Op) {
    && op.served.Keys <= Elems(c.prefs)
    && Distinct(op.collected) && (forall t :: t in op.collected ==> t in op.served)
    && |op.collected| <= ReadThreshold(c)
    && (op.phase.Issued? ==>
          && op.value.Some?
          && ReadDone(c, op)
          && op.phase.writing.version == NextVersion(op.coordinator, op.value.value, Replies(op))
          && WellFormedWriting(c, op.phase.writing))
  }

  ghost predicate OpsWellFormed(c: Config, s: State) {
    forall o {:trigger s.ops[o]} :: o in s.ops ==> WellFormedOp(c, s.ops[o])
  }

  lemma {:induction false} ReadStepWellFormed(c: Config, s: State, step: Step, o: OpId)
    requires Enabled(c, s, step) && Touched(step) == Some(o) && IsReadStep(step)
    requires o in s.ops ==> WellFormedOp(c, s.ops[o])
    ensures o in Apply(c, s, step).ops && WellFormedOp(c, Apply(c, s, step).ops[o])
  {
    if step.Issue? {
      KeepInMembers(c.prefs, step.down);
    }
  }

  lemma {:induction false} WriteStepWellFormed(c: Config, s: State, step: Step, o: OpId)
    requires Enabled(c, s, step) && Touched(step) == Some(o) && !IsReadStep(step)
    requires o in s.ops && WellFormedOp(c, s.ops[o])
    ensures o in Apply(c, s, step).ops && WellFormedOp(c, Apply(c, s, step).ops[o])
  {
    var op, op' := s.ops[o], Apply(c, s, step).ops[o];
    var w, w' := WritingOf(s, o), WritingOf(Apply(c, s, step), o);
    assert op' == op.(phase := Issued(w'));
    if step.HintDown? {
      assert w' == w.(todo := w.todo[1..], hinted := w'.hinted);
    } else if step.HintFailed? {
      assert w' == w.(failing := w.failing - {step.t}, hinted := w'.hinted);
    }
    assert WellFormedWriting(c, w');
  }

  lemma {:induction false} OpsWellFormedStep(c: Config, s: State, step: Step)
    requires OpsWellFormed(c, s) && Enabled(c, s, step)
    ensures OpsWellFormed(c, Apply(c, s, step))
  {
    var s' := Apply(c, s, step);
    forall o | o in s'.ops
      ensures WellFormedOp(c, s'.ops[o])
    {
      if Touched(step) != Some(o) {
        OtherOpsUnchanged(c, s, step, o);
      } else if IsReadStep(step) {
        ReadStepWellFormed(c, s, step, o);
      } else {
        WriteStepWellFormed(c, s, step, o);
      }
    }
  }

  // ----- provenance: only issued versions are ever stored or in flight

  ghost predicate AllIssued(s: State, vs: seq<Version>) {
    forall v {:trigger IsVersion(s, v)} :: v in vs ==> IsVersion(s, v)
  }

  ghost predicate Provenance(s: State) {
    && (forall t {:trigger Rep(s, t)} :: AllIssued(s, Rep(s, t)))
    && (forall t {:trigger Hints(s, t)} :: AllIssued(s, Hints(s, t)))
    && (forall o, t {:trigger s.ops[o].served[t]} :: o in s.ops && t in s.ops[o].served ==>
         AllIssued(s, s.ops[o].served[t]))
    && (s.flush.Some? ==> s.flush.value.todo != [] && AllIssued(s, s.flush.value.todo))
    && (forall t, v {:trigger (t, v) in s.flushSent} :: (t, v) in s.flushSent ==> IsVersion(s, v))
  }

  lemma {:induction false} VersionPersists(c: Config, s: State, step: Step, v: Version)
    requires Enabled(c, s, step) && IsVersion(s, v)
    ensures IsVersion(Apply(c, s, step), v)
  {
    var o :| IsIssued(s, o) && VersionOf(s, o) == v;
    IssuedPersists(c, s, step, o);
  }

  lemma {:induction false} AllIssuedPersists(c: Config, s: State, step: Step, vs: seq<Version>)
    requires Enabled(c, s, step) && AllIssued(s, vs)
    ensures AllIssued(Apply(c, s, step), vs)
  {
    forall v | v in vs
      ensures IsVersion(Apply(c, s, step), v)
    {
      assert IsVersion(s, v);
      VersionPersists(c, s, step, v);
    }
  }

  lemma {:induction false} ReconciledAllIssued(s: State, vs: seq<Version>, v: Version)
    requires AllIssued(s, vs) && IsVersion(s, v)
    ensures AllIssued(s, Reconciled(vs, v))
  {
    ReconciledMembers(vs, v);
  }

  lemma {:induction false} ReplicaProvenance(c: Config, s: State, step: Step, t: NodeId)
    requires Provenance(s) && Enabled(c, s, step)
    ensures AllIssued(Apply(c, s, step), Rep(Apply(c, s, step), t))
  {
    ReplicaChange(c, s, step, t);
    AllIssuedPersists(c, s, step, Rep(s, t));
    if StoredVersion(s, step).Some? {
      var v := StoredVersion(s, step).value;
      assert IsVersion(s, v);
      VersionPersists(c, s, step, v);
      ReconciledAllIssued(Apply(c, s, step), Rep(s, t), v);
    }
  }

  lemma {:induction false} HintProvenance(c: Config, s: State, step: Step, t: NodeId)
    requires Provenance(s) && Enabled(c, s, step)
    ensures AllIssued(Apply(c, s, step), Hints(Apply(c, s, step), t))
  {
    HintChange(c, s, step, t);
    AllIssuedPersists(c, s, step, Hints(s, t));
    if ParkedVersion(s, step).Some? {
      var v := ParkedVersion(s, step).value;
      assert IsVersion(s, v);
      VersionPersists(c, s, step, v);
      ReconciledAllIssued(Apply(c, s, step), Hints(s, t), v);
    }
  }

  /** A reply is a copy of the replica at the moment it was produced. */
  lemma {:induction false} ServedChange(c: Config, s: State, step: Step, o: OpId, t: NodeId)
    requires Enabled(c, s, step)
    requires o in Apply(c, s, step).ops && t in Apply(c, s, step).ops[o].served
    ensures || (o in s.ops && t in s.ops[o].served && Apply(c, s, step).ops[o].served[t] == s.ops[o].served[t])
            || (step == ServeRead(o, t) && o in s.ops && Apply(c, s, step).ops[o].served[t] == Rep(s, t))
  {
    if Touched(step) != Some(o) {
      OtherOpsUnchanged(c, s, step, o);
    }
  }

  lemma {:induction false} FlushChange(c: Config, s: State, step: Step)
    requires Enabled(c, s, step)
    ensures var f, f' := s.flush, Apply(c, s, step).flush;
            f'.Some? ==>
              || (f.Some? && f'.value.todo == f.value.todo)
              || (f.Some? && |f.value.todo| > 1 && f'.value.todo == f.value.todo[1..])
              || (step.FlushStart? && f'.value.todo == Hints(s, step.t) && f'.value.todo != [])
    ensures forall t, v :: (t, v) in Apply(c, s, step).flushSent ==>
              || (t, v) in s.flushSent
              || (step.FlushStart? && v in Hints(s, step.t))
              || (s.flush.Some? && v in s.flush.value.todo)
  {}

  lemma {:induction false} ProvenanceStep(c: Config, s: State, step: Step)
    requires Provenance(s) && Enabled(c, s, step)
    ensures Provenance(Apply(c, s, step))
  {
    var s' := Apply(c, s, step);
    forall t
      ensures AllIssued(s', Rep(s', t)) && AllIssued(s', Hints(s', t))
    {
      ReplicaProvenance(c, s, step, t);
      HintProvenance(c, s, step, t);
    }
    forall o, t | o in s'.ops && t in s'.ops[o].served
      ensures AllIssued(s', s'.ops[o].served[t])
    {
      ServedChange(c, s, step, o, t);
      if step == ServeRead(o, t) {
        AllIssuedPersists(c, s, step, Rep(s, t));
      }
      if o in s.ops && t in s.ops[o].served {
        AllIssuedPersists(c, s, step, s.ops[o].served[t]);
      }
    }
    FlushProvenance(c, s, step);
  }

  lemma {:induction false} FlushProvenance(c: Config, s: State, step: Step)
    requires Provenance(s) && Enabled(c, s, step)
    ensures var s' := Apply(c, s, step);
            && (s'.flush.Some? ==> s'.flush.value.todo != [] && AllIssued(s', s'.flush.value.todo))
            && (forall t, v :: (t, v) in s'.flushSent ==> IsVersion(s', v))
  {
    var s' := Apply(c, s, step);
    FlushChange(c, s, step);
    if s.flush.Some? {
      AllIssuedPersists(c, s, step, s.flush.value.todo);
    }
    if step.FlushStart? {
      AllIssuedPersists(c, s, step, Hints(s, step.t));
    }
    forall t, v | (t, v) in s'.flushSent
      ensures IsVersion(s', v)
    {
      if (t, v) in s.flushSent {
        VersionPersists(c, s, step, v);
      }
    }
  }

  // ----- sibling lists are antichains

  ghost predicate AllAntichains(s: State) {
    && (forall t {:trigger Rep(s, t)} :: Antichain(Rep(s, t)))
    && (forall t {:trigger Hints(s, t)} :: Antichain(Hints(s, t)))
    && (forall o, t {:trigger s.ops[o].served[t]} :: o in s.ops && t in s.ops[o].served ==>
         Antichain(s.ops[o].served[t]))
  }

  lemma {:induction false} AllAntichainsStep(c: Config, s: State, step: Step)
    requires AllAntichains(s) && Enabled(c, s, step)
    ensures AllAntichains(Apply(c, s, step))
  {
    var s' := Apply(c, s, step);
    forall t
      ensures Antichain(Rep(s', t)) && Antichain(Hints(s', t))
    {
      ReplicaChange(c, s, step, t);
      HintChange(c, s, step, t);
      if StoredVersion(s, step).Some? {
        ReconciledAntichain(Rep(s, t), StoredVersion(s, step).value);
      }
      if ParkedVersion(s, step).Some? {
        ReconciledAntichain(Hints(s, t), ParkedVersion(s, step).value);
      }
    }
    forall o, t | o in s'.ops && t in s'.ops[o].served
      ensures Antichain(s'.ops[o].served[t])
    {
      ServedChange(c, s, step, o, t);
    }
  }

  // ----- what has landed is covered

  ghost predicate LandedAt(s: State, o: OpId, t: NodeId) {
    IsIssued(s, o) && t in WritingOf(s, o).landed
  }

  ghost predicate LandedCovered(s: State) {
    forall o, t {:trigger LandedAt(s, o, t)} :: LandedAt(s, o, t) ==> Covers(Rep(s, t), ClockOf(s, o))
  }

  lemma {:induction false} StoredIsCovered(before: seq<Version>, v: Version)
    ensures Covers(Reconciled(before, v), v.clock)
  {
    assert Leq(v.clock, v.clock);
    ReconciledCovers(before, v, v.clock);
  }

  lemma {:induction false} LandedChange(c: Config, s: State, step: Step, o: OpId, t: NodeId)
    requires Enabled(c, s, step) && LandedAt(Apply(c, s, step), o, t)
    ensures || LandedAt(s, o, t)
            || (step == WriteLands(o, t) && IsIssued(s, o)
                && Rep(Apply(c, s, step), t) == Reconciled(Rep(s, t), VersionOf(s, o)))
  {
    if Touched(step) != Some(o) {
      OtherOpsUnchanged(c, s, step, o);
    }
  }

  lemma {:induction false} LandedCoveredStep(c: Config, s: State, step: Step)
    requires LandedCovered(s) && Enabled(c, s, step)
    ensures LandedCovered(Apply(c, s, step))
  {
    var s' := Apply(c, s, step);
    forall o, t | LandedAt(s', o, t)
      ensures Covers(Rep(s', t), ClockOf(s', o))
    {
      LandedChange(c, s, step, o, t);
      if LandedAt(s, o, t) {
        IssuedPersists(c, s, step, o);
        CoverageNeverShrinks(c, s, step, t, ClockOf(s, o));
      } else {
        IssuedPersists(c, s, step, o);
        StoredIsCovered(Rep(s, t), VersionOf(s, o));
      }
    }
  }

  ghost predicate FlushCovered(s: State) {
    s.flush.Some? && s.flush.value.landed && s.flush.value.todo != [] ==>
      Covers(Rep(s, s.flush.value.target), s.flush.value.todo[0].clock)
  }

  lemma {:induction false} FlushCoveredStep(c: Config, s: State, step: Step)
    requires FlushCovered(s) && Enabled(c, s, step)
    ensures FlushCovered(Apply(c, s, step))
  {
    var s' := Apply(c, s, step);
    if s'.flush.Some? && s'.flush.value.landed && s'.flush.value.todo != [] {
      var f := s'.flush.value;
      if s.flush.Some? && s.flush.value == f {
        CoverageNeverShrinks(c, s, step, f.target, f.todo[0].clock);
      } else {
        assert step.FlushLands?;
        StoredIsCovered(Rep(s, f.target), f.todo[0]);
      }
    }
  }

  // ----- hint coverage

  /** Every issued version is, for each replica of the key, stored there, still on
      its way, parked as a hint, or the subject of a recorded loss. */
  ghost predicate Accounted(s: State, o: OpId, t: NodeId)
    requires IsIssued(s, o)
  {
    || Covers(Rep(s, t), ClockOf(s, o))
    || Outstanding(WritingOf(s, o), t)
    || Covers(Hints(s, t), ClockOf(s, o))
    || (o, t) in s.lost
  }

  ghost predicate HintCoverage(c: Config, s: State) {
    forall o, t {:trigger Accounted(s, o, t)} :: IsIssued(s, o) && t in c.prefs ==> Accounted(s, o, t)
  }

  lemma {:induction false} OutstandingHint(c: Config, s: State, step: Step, o: OpId, t: NodeId)
    requires Enabled(c, s, step) && Touched(step) == Some(o) && (step.HintDown? || step.HintFailed?)
    requires Outstanding(WritingOf(s, o), t)
    ensures IsIssued(Apply(c, s, step), o)
    ensures || Outstanding(WritingOf(Apply(c, s, step), o), t)
            || (o, t) in Apply(c, s, step).lost
            || Hints(Apply(c, s, step), t) == Reconciled(Hints(s, t), VersionOf(s, o))
  {
    var w := WritingOf(s, o);
    var sent := if step.HintDown? then w.todo[0] else step.t;
    assert step.HintDown? ==> w.todo == [w.todo[0]] + w.todo[1..];
    var w' := WritingOf(Apply(c, s, step), o);
    assert t != sent ==> Outstanding(w', t);
  }

  lemma {:induction false} OutstandingWrite(c: Config, s: State, step: Step, o: OpId, t: NodeId)
    requires Enabled(c, s, step) && Touched(step) == Some(o) && !step.HintDown? && !step.HintFailed?
    requires IsIssued(s, o) && WellFormedOp(c, s.ops[o]) && Outstanding(WritingOf(s, o), t)
    ensures IsIssued(Apply(c, s, step), o)
    ensures Outstanding(WritingOf(Apply(c, s, step), o), t) || LandedAt(s, o, t)
  {}

  /** A request leaves the outstanding state with its version applied, parked or lost. */
  lemma {:induction false} OutstandingChange(c: Config, s: State, step: Step, o: OpId, t: NodeId)
    requires Enabled(c, s, step) && IsIssued(s, o) && WellFormedOp(c, s.ops[o])
    requires Outstanding(WritingOf(s, o), t)
    ensures IsIssued(Apply(c, s, step), o)
    ensures || Outstanding(WritingOf(Apply(c, s, step), o), t)
            || LandedAt(s, o, t)
            || (o, t) in Apply(c, s, step).lost
            || Hints(Apply(c, s, step), t) == Reconciled(Hints(s, t), VersionOf(s, o))
  {
    if Touched(step) != Some(o) {
      OtherOpsUnchanged(c, s, step, o);
    } else if step.HintDown? || step.HintFailed? {
      OutstandingHint(c, s, step, o, t);
    } else {
      OutstandingWrite(c, s, step, o, t);
    }
  }

  lemma {:induction false} IssueAccounts(c: Config, s: State, step: Step, o: OpId, t: NodeId)
    requires Enabled(c, s, step) && t in c.prefs
    requires !IsIssued(s, o) && IsIssued(Apply(c, s, step), o)
    ensures Outstanding(WritingOf(Apply(c, s, step), o), t)
  {
    NewlyIssued(c, s, step, o);
    KeepInMembers(c.prefs, step.down);
  }

  lemma {:induction false} HintsChangeCovers(c: Config, s: State, step: Step, o: OpId, t: NodeId)
    requires Enabled(c, s, step) && IsIssued(s, o) && Covers(Hints(s, t), ClockOf(s, o))
    ensures || Covers(Hints(Apply(c, s, step), t), ClockOf(s, o))
            || Covers(Rep(s, t), ClockOf(s, o))
            || (o, t) in Apply(c, s, step).lost
  {
    HintChange(c, s, step, t);
    if ParkedVersion(s, step).Some? {
      ReconciledCovers(Hints(s, t), ParkedVersion(s, step).value, ClockOf(s, o));
    }
    if step.FlushOk? && s.flush.value.target == t && !Covers(Rep(s, t), ClockOf(s, o)) {
      assert (o, t) in DroppedByClear(s, t);
    }
  }

  lemma {:induction false} AccountedStep(c: Config, s: State, step: Step, o: OpId, t: NodeId)
    requires OpsWellFormed(c, s) && LandedCovered(s) && Enabled(c, s, step)
    requires IsIssued(s, o) && Accounted(s, o, t)
    ensures IsIssued(Apply(c, s, step), o) && Accounted(Apply(c, s, step), o, t)
  {
    var clock := ClockOf(s, o);
    IssuedPersists(c, s, step, o);
    LostGrows(c, s, step);
    if Covers(Rep(s, t), clock) || LandedAt(s, o, t) {
      CoverageNeverShrinks(c, s, step, t, clock);
    } else if Outstanding(WritingOf(s, o), t) {
      OutstandingChange(c, s, step, o, t);
      StoredIsCovered(Hints(s, t), VersionOf(s, o));
    } else if Covers(Hints(s, t), clock) {
      HintsChangeCovers(c, s, step, o, t);
    }
  }

  lemma {:induction false} HintCoverageStep(c: Config, s: State, step: Step)
    requires OpsWellFormed(c, s) && LandedCovered(s) && HintCoverage(c, s) && Enabled(c, s, step)
    ensures HintCoverage(c, Apply(c, s, step))
  {
    var s' := Apply(c, s, step);
    forall o, t | IsIssued(s', o) && t in c.prefs
      ensures Accounted(s', o, t)
    {
      if IsIssued(s, o) {
        assert Accounted(s, o, t);
        AccountedStep(c, s, step, o, t);
      } else {
        IssueAccounts(c, s, step, o, t);
      }
    }
  }

  // ----- reads started after an acknowledgement

  /** `o` was acknowledged before `r` started, and each of its ackers that served `r` showed it. */
  ghost predicate Shown(c: Config, s: State, r: OpId, o: OpId)
    requires r in s.ops
  {
    && IsAcked(c, s, o)
    && forall t {:trigger s.ops[r].served[t]} :: t in WritingOf(s, o).acks && t in s.ops[r].served ==>
         Covers(s.ops[r].served[t], ClockOf(s, o))
  }

  ghost predicate AckedShown(c: Config, s: State) {
    forall r, o {:trigger o in s.ops[r].ackedBefore} ::
      r in s.ops && o in s.ops[r].ackedBefore ==> Shown(c, s, r, o)
  }

  lemma {:induction false} AckedBeforeChange(c: Config, s: State, step: Step, r: OpId)
    requires Enabled(c, s, step) && r in Apply(c, s, step).ops
    ensures r in s.ops ==> Apply(c, s, step).ops[r].ackedBefore == s.ops[r].ackedBefore
    ensures r !in s.ops ==>
              Apply(c, s, step).ops[r].ackedBefore == AckedOps(c, s) && Apply(c, s, step).ops[r].served == map[]
  {
    if r in s.ops {
      OpsEvolve(c, s, step, r);
    } else if Touched(step) != Some(r) {
      OtherOpsUnchanged(c, s, step, r);
    }
  }

  lemma {:induction false} AckedShownStep(c: Config, s: State, step: Step)
    requires OpsWellFormed(c, s) && LandedCovered(s) && AckedShown(c, s) && Enabled(c, s, step)
    ensures AckedShown(c, Apply(c, s, step))
  {
    var s' := Apply(c, s, step);
    forall r, o | r in s'.ops && o in s'.ops[r].ackedBefore
      ensures Shown(c, s', r, o)
    {
      AckedBeforeChange(c, s, step, r);
      assert IsAcked(c, s, o);
      IssuedPersists(c, s, step, o);
      forall t | t in WritingOf(s', o).acks && t in s'.ops[r].served
        ensures Covers(s'.ops[r].served[t], ClockOf(s', o))
      {
        ServedChange(c, s, step, r, t);
        if step == ServeRead(r, t) {
          assert WellFormedOp(c, s.ops[o]);
          assert LandedAt(s, o, t);
        } else {
          assert Shown(c, s, r, o);
        }
      }
    }
  }

  // ----- all together, over every run

  ghost predicate Invariant(c: Config, s: State) {
    && OpsWellFormed(c, s)
    && Provenance(s)
    && AllAntichains(s)
    && LandedCovered(s)
    && FlushCovered(s)
    && HintCoverage(c, s)
    && AckedShown(c, s)
  }

  lemma {:induction false} InvariantStep(c: Config, s: State, step: Step)
    requires Invariant(c, s) && Enabled(c, s, step)
    ensures Invariant(c, Apply(c, s, step))
  {
    OpsWellFormedStep(c, s, step);
    ProvenanceStep(c, s, step);
    AllAntichainsStep(c, s, step);
    LandedCoveredStep(c, s, step);
    FlushCoveredStep(c, s, step);
    HintCoverageStep(c, s, step);
    AckedShownStep(c, s, step);
  }

  lemma {:induction false} InvariantHolds(c: Config, run: Run)
    requires Legal(c, run)
    ensures Invariant(c, Final(run))
  {
    match run
    case Start =>
    case Then(prev, step, _) =>
      InvariantHolds(c, prev);
      InvariantStep(c, Final(prev), step);
  }
}
