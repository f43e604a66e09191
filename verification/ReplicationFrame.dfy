/** What one step of the replication protocol may change. */
module ReplicationFrame {
  import opened Basics
  import opened VectorClocks
  import opened Antichains
  import opened Quorums
  import opened Replication

  /** How an operation may move on: its read is frozen once it has issued, its
      version never changes, and counted acknowledgements freeze at the threshold. */
  ghost predicate OpEvolves(c: Config, a: Op, b: Op) {
    && a.value == b.value && a.coordinator == b.coordinator && a.ackedBefore == b.ackedBefore
    && (forall t :: t in a.served ==> t in b.served && b.served[t] == a.served[t])
    && a.collected <= b.collected
    && (a.phase.Issued? ==>
          && b.phase.Issued? && a.served == b.served && a.collected == b.collected
          && a.phase.writing.version == b.phase.writing.version
          && a.phase.writing.landed <= b.phase.writing.landed
          && (|a.phase.writing.acks| >= WriteThreshold(c) ==> a.phase.writing.acks == b.phase.writing.acks))
    && (a.phase.Aborted? ==> b.phase.Aborted?)
  }

  /** The operation a step belongs to. */
  function Touched(step: Step): Option<OpId> {
    match step
    case StartPut(id, _, _) => Some(id)
    case StartGet(id, _) => Some(id)
    case ServeRead(id, _) => Some(id)
    case CollectRead(id, _) => Some(id)
    case AbortRead(id) => Some(id)
    case Issue(id, _) => Some(id)
    case HintDown(id, _) => Some(id)
    case BeginWrites(id) => Some(id)
    case WriteLands(id, _) => Some(id)
    case WriteOk(id, _) => Some(id)
    case WriteFails(id, _) => Some(id)
    case HintFailed(id, _, _) => Some(id)
    case HintLands(_, _) => None
    case FlushStart(_) => None
    case FlushLands(_, _) => None
    case FlushOk => None
    case FlushFails => None
  }

  lemma {:induction false} OtherOpsUnchanged(c: Config, s: State, step: Step, o: OpId)
    requires Enabled(c, s, step) && Touched(step) != Some(o)
    ensures o in Apply(c, s, step).ops <==> o in s.ops
    ensures o in s.ops ==> Apply(c, s, step).ops[o] == s.ops[o]
  {}

  predicate IsReadStep(step: Step) {
    step.StartPut? || step.StartGet? || step.ServeRead? || step.CollectRead? || step.AbortRead? || step.Issue?
  }

  lemma {:induction false} ReadStepEvolves(c: Config, s: State, step: Step, o: OpId)
    requires Enabled(c, s, step) && Touched(step) == Some(o) && IsReadStep(step)
    ensures o in Apply(c, s, step).ops
    ensures o in s.ops ==> OpEvolves(c, s.ops[o], Apply(c, s, step).ops[o])
  {}

  /** The parts of a put's bookkeeping that only grow or freeze. */
  ghost predicate WritingEvolves(c: Config, a: Writing, b: Writing) {
    && a.version == b.version
    && a.landed <= b.landed
    && (|a.acks| >= WriteThreshold(c) ==> a.acks == b.acks)
  }

  lemma {:induction false} HintStepEvolves(c: Config, s: State, step: Step, o: OpId)
    requires Enabled(c, s, step) && Touched(step) == Some(o) && (step.HintDown? || step.HintFailed?)
    ensures o in s.ops && o in Apply(c, s, step).ops
    ensures OpEvolves(c, s.ops[o], Apply(c, s, step).ops[o])
  {
    var w := WritingOf(s, o);
    var op' := Apply(c, s, step).ops[o];
    assert op'.phase.Issued? && op' == s.ops[o].(phase := op'.phase);
    assert WritingEvolves(c, w, op'.phase.writing);
  }

  lemma {:induction false} WriteStepEvolves(c: Config, s: State, step: Step, o: OpId)
    requires Enabled(c, s, step) && Touched(step) == Some(o)
    requires step.BeginWrites? || step.WriteLands? || step.WriteOk? || step.WriteFails?
    ensures o in s.ops && o in Apply(c, s, step).ops
    ensures OpEvolves(c, s.ops[o], Apply(c, s, step).ops[o])
  {
    var w := WritingOf(s, o);
    var op' := Apply(c, s, step).ops[o];
    assert op'.phase.Issued? && op' == s.ops[o].(phase := op'.phase);
    assert WritingEvolves(c, w, op'.phase.writing);
  }

  lemma {:induction false} OpsEvolve(c: Config, s: State, step: Step, o: OpId)
    requires Enabled(c, s, step) && o in s.ops
    ensures o in Apply(c, s, step).ops && OpEvolves(c, s.ops[o], Apply(c, s, step).ops[o])
  {
    if Touched(step) == Some(o) {
      if IsReadStep(step) {
        ReadStepEvolves(c, s, step, o);
      } else if step.HintDown? || step.HintFailed? {
        HintStepEvolves(c, s, step, o);
      } else {
        WriteStepEvolves(c, s, step, o);
      }
    } else {
      OtherOpsUnchanged(c, s, step, o);
    }
  }

  lemma {:induction false} IssuedPersists(c: Config, s: State, step: Step, o: OpId)
    requires Enabled(c, s, step) && IsIssued(s, o)
    ensures IsIssued(Apply(c, s, step), o) && VersionOf(Apply(c, s, step), o) == VersionOf(s, o)
    ensures WritingOf(s, o).landed <= WritingOf(Apply(c, s, step), o).landed
    ensures IsAcked(c, s, o) ==>
              IsAcked(c, Apply(c, s, step), o) && WritingOf(Apply(c, s, step), o).acks == WritingOf(s, o).acks
  {
    OpsEvolve(c, s, step, o);
  }

  /** A version becomes issued only through its own `Issue` step. */
  lemma {:induction false} NewlyIssued(c: Config, s: State, step: Step, o: OpId)
    requires Enabled(c, s, step) && IsIssued(Apply(c, s, step), o) && !IsIssued(s, o)
    ensures step.Issue? && step.id == o && o in s.ops && s.ops[o].phase.Reading?
    ensures Apply(c, s, step).ops[o].served == s.ops[o].served
    ensures Apply(c, s, step).ops[o].collected == s.ops[o].collected
  {
    if Touched(step) != Some(o) {
      OtherOpsUnchanged(c, s, step, o);
    }
  }

  /** The version a step stores at a replica. */
  function StoredVersion(s: State, step: Step): Option<Version> {
    match step
    case WriteLands(id, _) => if IsIssued(s, id) then Some(VersionOf(s, id)) else None
    case FlushLands(_, version) => Some(version)
    case _ => None
  }

  /** A replica's list changes by one reconciliation or not at all. */
  lemma {:induction false} ReplicaChange(c: Config, s: State, step: Step, t: NodeId)
    requires Enabled(c, s, step)
    ensures Rep(Apply(c, s, step), t) == Rep(s, t)
            || (StoredVersion(s, step).Some?
                && Rep(Apply(c, s, step), t) == Reconciled(Rep(s, t), StoredVersion(s, step).value))
  {}

  /** No step ever makes a replica stop covering a clock it covered. */
  lemma {:induction false} CoverageNeverShrinks(c: Config, s: State, step: Step, t: NodeId, clock: Clock)
    requires Enabled(c, s, step) && Covers(Rep(s, t), clock)
    ensures Covers(Rep(Apply(c, s, step), t), clock)
  {
    ReplicaChange(c, s, step, t);
    if StoredVersion(s, step).Some? {
      ReconciledCovers(Rep(s, t), StoredVersion(s, step).value, clock);
    }
  }

  /** The version a step parks as a hint. */
  function ParkedVersion(s: State, step: Step): Option<Version> {
    match step
    case HintDown(id, _) => if IsIssued(s, id) then Some(VersionOf(s, id)) else None
    case HintFailed(id, _, _) => if IsIssued(s, id) then Some(VersionOf(s, id)) else None
    case HintLands(id, _) => if IsIssued(s, id) then Some(VersionOf(s, id)) else None
    case _ => None
  }

  lemma {:induction false} HintChange(c: Config, s: State, step: Step, t: NodeId)
    requires Enabled(c, s, step)
    ensures || Hints(Apply(c, s, step), t) == Hints(s, t)
            || (ParkedVersion(s, step).Some?
                && Hints(Apply(c, s, step), t) == Reconciled(Hints(s, t), ParkedVersion(s, step).value))
            || (step.FlushOk? && s.flush.value.target == t && Hints(Apply(c, s, step), t) == [])
  {}

  lemma {:induction false} LostGrows(c: Config, s: State, step: Step)
    requires Enabled(c, s, step)
    ensures s.lost <= Apply(c, s, step).lost
  {}
}
