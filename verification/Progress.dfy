/** The protocol never gets stuck: from every reachable state the work that remains can
    be finished, and with a spare node nothing needs to be lost on the way. */
module Progress {
  import opened Basics
  import opened VectorClocks
  import opened Antichains
  import opened Quorums
  import opened Replication
  import opened ReplicationFrame
  import opened ReplicationInvariant
  import opened Continuations
  import opened Convergence

  // ----- without a spare node there are no hints

  ghost predicate NoSpareNoHints(c: Config, s: State) {
    c.spare.None? ==>
      && (forall t {:trigger Hints(s, t)} :: Hints(s, t) == [])
      && (forall o {:trigger WritingOf(s, o)} :: IsIssued(s, o) ==> WritingOf(s, o).hinted == {})
  }

  lemma {:induction false} NoSpareNoHintsStep(c: Config, s: State, step: Step)
    requires NoSpareNoHints(c, s) && Enabled(c, s, step)
    ensures NoSpareNoHints(c, Apply(c, s, step))
  {
    var s' := Apply(c, s, step);
    if c.spare.None? {
      forall t
        ensures Hints(s', t) == []
      {
        assert Hints(s, t) == [];
      }
      forall o: OpId | IsIssued(s', o)
        ensures WritingOf(s', o).hinted == {}
      {
        if Touched(step) != Some(o) {
          OtherOpsUnchanged(c, s, step, o);
        }
        assert IsIssued(s, o) ==> WritingOf(s, o).hinted == {};
      }
    }
  }

  lemma {:induction false} NoSpareNoHintsHolds(c: Config, run: Run)
    requires Legal(c, run)
    ensures NoSpareNoHints(c, Final(run))
  {
    match run
    case Start =>
    case Then(prev, step, _) =>
      NoSpareNoHintsHolds(c, prev);
      NoSpareNoHintsStep(c, Final(prev), step);
  }

  // ----- finishing one put

  /** From `s` to `s'` only put `o` moved on, and nothing was lost that a spare node could keep. */
  ghost predicate OnlyMoves(c: Config, s: State, s': State, o: OpId) {
    && IsIssued(s, o) && IsIssued(s', o) && VersionOf(s', o) == VersionOf(s, o)
    && s'.ops.Keys == s.ops.Keys && (forall u {:trigger s'.ops[u]} :: u in s.ops && u != o ==> s'.ops[u] == s.ops[u])
    && s'.flush == s.flush
    && (c.spare.Some? ==> s'.lost == s.lost)
  }

  /** `w'` has less left to do than `w`: lexicographically fewer hints for presumed-down
      replicas before the writes, then fewer writes and fewer hints for failed ones. */
  ghost predicate LessWork(w': Writing, w: Writing) {
    || (!w.begun && w'.begun)
    || (w.begun == w'.begun
        && (|w'.todo| < |w.todo|
            || (w'.todo == w.todo && (w'.pending < w.pending || (w'.pending == w.pending && w'.failing < w.failing)))))
  }

  lemma {:induction false} OnlyMovesThen(c: Config, s0: State, s1: State, s2: State, o: OpId)
    requires OnlyMoves(c, s0, s1, o) && OnlyMoves(c, s1, s2, o)
    ensures OnlyMoves(c, s0, s2, o)
  {
    forall u | u in s0.ops && u != o
      ensures s2.ops[u] == s0.ops[u]
    {
      assert s1.ops[u] == s0.ops[u];
    }
  }

  /** A hint is stored, or the writes begin. */
  lemma {:induction false} StepHelps(c: Config, s: State, step: Step, o: OpId)
    requires Enabled(c, s, step)
    requires step == HintDown(o, true) || step == BeginWrites(o) || (step.HintFailed?
        && step == HintFailed(o, step.t, true))
    ensures OnlyMoves(c, s, Apply(c, s, step), o) && LessWork(WritingOf(Apply(c, s, step), o), WritingOf(s, o))
  {
    var w, s' := WritingOf(s, o), Apply(c, s, step);
    var w' := WritingOf(s', o);
    assert s'.ops[o] == s.ops[o].(phase := Issued(w'));
    if step.HintDown? {
      assert w'.begun == w.begun && |w'.todo| < |w.todo|;
    } else if step.HintFailed? {
      assert w'.begun == w.begun && w'.todo == w.todo && w'.pending == w.pending && w'.failing == w.failing - {step.t};
    }
  }

  /** A pending write lands and is answered. */
  lemma {:induction false} WriteHelps(c: Config, s: State, o: OpId, t: NodeId)
    requires Enabled(c, s, WriteLands(o, t)) && t in WritingOf(s, o).pending
    ensures var half := Apply(c, s, WriteLands(o, t));
            && Enabled(c, half, WriteOk(o, t))
            && var s' := Apply(c, half, WriteOk(o, t));
               OnlyMoves(c, s, s', o) && LessWork(WritingOf(s', o), WritingOf(s, o))
  {}

  lemma {:induction false} WorkOn(c: Config, run: Run, o: OpId) returns (next: Run)
    requires Legal(c, run) && IsIssued(Final(run), o)
    requires var w := WritingOf(Final(run), o); !w.begun || w.pending != {} || w.failing != {}
    ensures Legal(c, next) && Extends(next, run) && OnlyMoves(c, Final(run), Final(next), o)
    ensures LessWork(WritingOf(Final(next), o), WritingOf(Final(run), o))
  {
    var s, w := Final(run), WritingOf(Final(run), o);
    if w.begun && w.pending != {} {
      InvariantHolds(c, run);
      assert WellFormedOp(c, s.ops[o]);
      var t :| t in w.pending;
      WriteHelps(c, s, o, t);
      var half := Take(c, run, WriteLands(o, t));
      next := Take(c, half, WriteOk(o, t));
      ExtendsTransitive(run, half, next);
    } else {
      var step;
      if w.begun {
        var t :| t in w.failing;
        step := HintFailed(o, t, true);
      } else {
        step := if w.todo != [] then HintDown(o, true) else BeginWrites(o);
      }
      StepHelps(c, s, step, o);
      next := Take(c, run, step);
    }
  }

  // ----- a put that began its writes has sent its hints

  ghost predicate BegunHinted(s: State) {
    forall o {:trigger WritingOf(s, o)} :: IsIssued(s, o) && WritingOf(s, o).begun ==> WritingOf(s, o).todo == []
  }

  lemma {:induction false} BegunHintedStep(c: Config, s: State, step: Step)
    requires BegunHinted(s) && Enabled(c, s, step)
    ensures BegunHinted(Apply(c, s, step))
  {
    var s' := Apply(c, s, step);
    forall o: OpId | IsIssued(s', o) && WritingOf(s', o).begun
      ensures WritingOf(s', o).todo == []
    {
      if Touched(step) != Some(o) {
        OtherOpsUnchanged(c, s, step, o);
      }
      assert IsIssued(s, o);
      assert WritingOf(s, o).begun ==> WritingOf(s, o).todo == [];
    }
  }

  lemma {:induction false} BegunHintedHolds(c: Config, run: Run)
    requires Legal(c, run)
    ensures BegunHinted(Final(run))
  {
    match run
    case Start =>
    case Then(prev, step, _) =>
      BegunHintedHolds(c, prev);
      BegunHintedStep(c, Final(prev), step);
  }

  lemma {:induction false} FinishPut(c: Config, run: Run, o: OpId) returns (next: Run)
    requires Legal(c, run) && IsIssued(Final(run), o)
    ensures Legal(c, next) && Extends(next, run) && OnlyMoves(c, Final(run), Final(next), o)
    ensures NothingOutstanding(Final(next), o)
    decreases !WritingOf(Final(run), o).begun, |WritingOf(Final(run), o).todo|,
              WritingOf(Final(run), o).pending, WritingOf(Final(run), o).failing
  {
    var w := WritingOf(Final(run), o);
    if w.begun && w.pending == {} && w.failing == {} {
      next := run;
      BegunHintedHolds(c, run);
    } else {
      var half := WorkOn(c, run, o);
      next := FinishPut(c, half, o);
      ExtendsTransitive(run, half, next);
      OnlyMovesThen(c, Final(run), Final(half), Final(next), o);
    }
  }

  // ----- finishing all of them

  /** The same versions are issued, and nothing was lost that a spare node could keep. */
  ghost predicate Advances(c: Config, s: State, s': State) {
    && s'.ops.Keys == s.ops.Keys
    && (forall o {:trigger IsIssued(s', o)} :: IsIssued(s', o) <==> IsIssued(s, o))
    && (forall o {:trigger IsIssued(s, o)} :: IsIssued(s, o) ==> IsIssued(s', o) && VersionOf(s', o) == VersionOf(s, o))
    && (c.spare.Some? ==> s'.lost == s.lost)
  }

  ghost predicate DoneExcept(s: State, todo: set<OpId>) {
    forall o {:trigger IsIssued(s, o)} :: IsIssued(s, o) && o !in todo ==> NothingOutstanding(s, o)
  }

  lemma {:induction false} FinishedOne(c: Config, s: State, s': State, todo: set<OpId>, o: OpId)
    requires DoneExcept(s, todo) && IsIssued(s, o) && OnlyMoves(c, s, s', o) && NothingOutstanding(s', o)
    ensures DoneExcept(s', todo - {o}) && Advances(c, s, s')
  {
    forall u: OpId | IsIssued(s', u) && u !in todo - {o}
      ensures NothingOutstanding(s', u)
    {
      if u != o {
        assert s'.ops[u] == s.ops[u] && IsIssued(s, u) && u !in todo;
        assert NothingOutstanding(s, u) && WritingOf(s', u) == WritingOf(s, u);
      }
    }
    forall u
      ensures IsIssued(s', u) <==> IsIssued(s, u)
      ensures IsIssued(s, u) ==> IsIssued(s', u) && VersionOf(s', u) == VersionOf(s, u)
    {
      if u in s.ops && u != o {
        assert s'.ops[u] == s.ops[u];
      }
    }
  }

  lemma {:induction false} FinishPuts(c: Config, run: Run, todo: set<OpId>) returns (next: Run)
    requires Legal(c, run) && DoneExcept(Final(run), todo)
    ensures Legal(c, next) && Extends(next, run) && Advances(c, Final(run), Final(next))
    ensures DoneExcept(Final(next), {})
    decreases todo
  {
    if todo == {} {
      next := run;
    } else {
      var o :| o in todo;
      var half := run;
      if IsIssued(Final(run), o) {
        half := FinishPut(c, run, o);
        FinishedOne(c, Final(run), Final(half), todo, o);
      }
      next := FinishPuts(c, half, todo - {o});
      ExtendsTransitive(run, half, next);
    }
  }

  // ----- emptying the hint store

  /** The flush in progress, if any, is given up. */
  lemma {:induction false} DropFlush(c: Config, run: Run) returns (next: Run)
    requires Legal(c, run)
    ensures Legal(c, next) && Extends(next, run) && Final(next).flush.None?
    ensures var s, s' := Final(run), Final(next);
            s'.ops == s.ops && s'.hints == s.hints && s'.lost == s.lost && s'.replicas == s.replicas
    decreases var f := Final(run).flush; if f.Some? then 1 + |f.value.todo| else 0
  {
    next := run;
    if Final(run).flush.Some? {
      InvariantHolds(c, run);
      var half := Take(c, run, FlushFails);
      next := DropFlush(c, half);
      ExtendsTransitive(run, half, next);
    }
  }

  ghost predicate AllCovered(s: State, t: NodeId, hints: seq<Version>) {
    forall v {:trigger Covers(Rep(s, t), v.clock)} :: v in hints ==> Covers(Rep(s, t), v.clock)
  }

  /** A flush whose next hint has been sent but has not landed. */
  ghost predicate Flushing(s: State, t: NodeId, todo: seq<Version>) {
    todo != [] && s.flush == Some(Flush(t, todo, false)) && (t, todo[0]) in s.flushSent
  }

  /** The next hint lands at the target. */
  lemma {:induction false} FlushLand(c: Config, run: Run, t: NodeId, sent: seq<Version>, todo: seq<Version>)
    returns (next: Run)
    requires Legal(c, run) && Flushing(Final(run), t, todo) && AllCovered(Final(run), t, sent)
    ensures Legal(c, next) && Extends(next, run) && Final(next).flush == Some(Flush(t, todo, true))
    ensures var s, s' := Final(run), Final(next);
            s'.ops == s.ops && s'.hints == s.hints && s'.lost == s.lost
    ensures AllCovered(Final(next), t, sent + [todo[0]])
  {
    var s := Final(run);
    next := Take(c, run, FlushLands(t, todo[0]));
    forall v | v in sent + [todo[0]]
      ensures Covers(Rep(Final(next), t), v.clock)
    {
      StoredIsCovered(Rep(s, t), todo[0]);
      if v in sent {
        assert Covers(Rep(s, t), v.clock);
        CoverageNeverShrinks(c, s, FlushLands(t, todo[0]), t, v.clock);
      }
    }
  }

  lemma {:induction false} AllCoveredSame(s: State, s': State, t: NodeId, hints: seq<Version>)
    requires AllCovered(s, t, hints) && Rep(s', t) == Rep(s, t)
    ensures AllCovered(s', t, hints)
  {
    forall v | v in hints
      ensures Covers(Rep(s', t), v.clock)
    {
      assert Covers(Rep(s, t), v.clock);
    }
  }

  /** Clearing hints the target covers loses nothing. */
  lemma {:induction false} ClearCovered(s: State, t: NodeId)
    requires AllCovered(s, t, Hints(s, t))
    ensures DroppedByClear(s, t) == {}
  {
    forall o | o in s.ops && IsIssued(s, o) && CoveredIn(Hints(s, t), ClockOf(s, o))
      ensures CoveredIn(Rep(s, t), ClockOf(s, o))
    {
      var v :| v in Hints(s, t) && Leq(ClockOf(s, o), v.clock);
      assert Covers(Rep(s, t), v.clock);
      CoversDown(Rep(s, t), ClockOf(s, o), v.clock);
    }
  }

  lemma {:induction false} FlushRest(c: Config, run: Run, t: NodeId, sent: seq<Version>, todo: seq<Version>)
    returns (next: Run)
    requires Legal(c, run) && Flushing(Final(run), t, todo) && AllCovered(Final(run), t, sent)
    requires Hints(Final(run), t) == sent + todo
    ensures Legal(c, next) && Extends(next, run) && Final(next).flush.None?
    ensures var s, s' := Final(run), Final(next);
            s'.ops == s.ops && s'.hints == s.hints[t := []] && s'.lost == s.lost
    decreases |todo|
  {
    var landed := FlushLand(c, run, t, sent, todo);
    var sent' := sent + [todo[0]];
    assert sent + todo == sent' + todo[1..];
    if |todo| == 1 {
      assert Hints(Final(landed), t) == sent';
      ClearCovered(Final(landed), t);
      next := Take(c, landed, FlushOk);
      ExtendsTransitive(run, landed, next);
    } else {
      var half := Take(c, landed, FlushFails);
      AllCoveredSame(Final(landed), Final(half), t, sent');
      assert Hints(Final(half), t) == sent' + todo[1..];
      next := FlushRest(c, half, t, sent', todo[1..]);
      ExtendsTransitive(run, landed, half);
      ExtendsTransitive(run, half, next);
    }
  }

  /** All hints of one target are delivered before the last confirmation clears them. */
  lemma {:induction false} FlushTarget(c: Config, run: Run, t: NodeId) returns (next: Run)
    requires Legal(c, run) && Final(run).flush.None?
    ensures Legal(c, next) && Extends(next, run) && Final(next).flush.None?
    ensures var s, s' := Final(run), Final(next);
            && s'.ops == s.ops && s'.lost == s.lost && Hints(s', t) == []
            && forall u :: u != t ==> Hints(s', u) == Hints(s, u)
  {
    NoSpareNoHintsHolds(c, run);
    next := run;
    var hints := Hints(Final(run), t);
    if hints != [] {
      var half := Take(c, run, FlushStart(t));
      assert [] + hints == hints;
      next := FlushRest(c, half, t, [], hints);
      ExtendsTransitive(run, half, next);
    }
  }

  lemma {:induction false} FlushTargets(c: Config, run: Run, targets: seq<NodeId>) returns (next: Run)
    requires Legal(c, run) && Final(run).flush.None?
    ensures Legal(c, next) && Extends(next, run) && Final(next).flush.None?
    ensures Final(next).ops == Final(run).ops && Final(next).lost == Final(run).lost
    ensures forall t :: Hints(Final(next), t) == if t in targets then [] else Hints(Final(run), t)
  {
    next := run;
    if targets != [] {
      var front, last := targets[..|targets| - 1], targets[|targets| - 1];
      var half := FlushTargets(c, run, front);
      next := FlushTarget(c, half, last);
      assert targets == front + [last];
      ExtendsTransitive(run, half, next);
    }
  }

  // ----- the results

  /** Every reachable state has a continuation in which nothing remains to be done; no
      further version is issued in it and, with a spare node, none is lost. */
  lemma {:induction false} AlwaysQuiescible(c: Config, run: Run) returns (later: Run)
    requires Legal(c, run)
    ensures Legal(c, later) && Extends(later, run) && Quiet(c, Final(later))
    ensures IssuedVersions(Final(later)) == IssuedVersions(Final(run))
    ensures c.spare.Some? ==> Final(later).lost == Final(run).lost
  {
    var finished := FinishPuts(c, run, Final(run).ops.Keys);
    SameVersions(c, Final(run), Final(finished));
    var dropped := DropFlush(c, finished);
    later := FlushTargets(c, dropped, c.prefs);
    ExtendsTransitive(run, finished, dropped);
    ExtendsTransitive(run, dropped, later);
    NothingLeft(c, Final(finished), Final(later));
    assert IssuedVersions(Final(later)) == IssuedVersions(Final(finished));
  }

  lemma {:induction false} NothingLeft(c: Config, s: State, s': State)
    requires DoneExcept(s, {}) && s'.ops == s.ops
    requires forall t :: t in c.prefs ==> Hints(s', t) == []
    ensures Quiet(c, s')
  {
    forall o: OpId, t | IsIssued(s', o) && t in c.prefs
      ensures !Outstanding(WritingOf(s', o), t)
    {
      assert IsIssued(s, o) && NothingOutstanding(s, o) && WritingOf(s', o) == WritingOf(s, o);
    }
  }

  lemma {:induction false} SameVersions(c: Config, s: State, s': State)
    requires Advances(c, s, s')
    ensures IssuedVersions(s') == IssuedVersions(s)
  {
    forall v
      ensures v in IssuedVersions(s') <==> v in IssuedVersions(s)
    {
      if v in IssuedVersions(s) {
        var o :| o in s.ops && IsIssued(s, o) && VersionOf(s, o) == v;
        assert IsIssued(s', o);
      }
      if v in IssuedVersions(s') {
        var o :| o in s'.ops && IsIssued(s', o) && VersionOf(s', o) == v;
        assert IsIssued(s, o);
      }
    }
  }

  /** With a spare node, a state in which nothing was lost so far can always still
      converge, and to everything issued so far, whatever is in flight or parked. */
  lemma {:induction false} ConvergenceStaysPossible(c: Config, run: Run) returns (later: Run)
    requires Legal(c, run) && c.spare.Some? && Final(run).lost == {}
    ensures Legal(c, later) && Extends(later, run)
    ensures forall t {:trigger Rep(Final(later), t)} :: t in c.prefs ==>
              MaximalAntichain(Rep(Final(later), t), IssuedVersions(Final(run)))
  {
    later := AlwaysQuiescible(c, run);
    forall t | t in c.prefs
      ensures MaximalAntichain(Rep(Final(later), t), IssuedVersions(Final(run)))
    {
      ReplicasConverge(c, later, t, t);
    }
  }
}
