/** Which clocks every later read is bound to show, in any reachable state and for any
    quorums. There is no read repair, so nothing else is. */
module Visibility {
  import opened Basics
  import opened VectorClocks
  import opened Antichains
  import opened Quorums
  import opened Replication
  import opened ReplicationFrame
  import opened ReplicationInvariant
  import opened Continuations
  import opened Convergence

  /** The replicas that cover the clock. */
  ghost function Holders(c: Config, s: State, clock: Clock): set<NodeId> {
    set t | t in c.prefs && Covers(Rep(s, t), clock)
  }

  /** In every continuation, every read that starts from now on and completes shows
      the clock or one above it. */
  ghost predicate ShownForever(c: Config, run: Run, clock: Clock) {
    forall later, r {:trigger ReadDone(c, Final(later).ops[r])} ::
      Legal(c, later) && Extends(later, run)
      && r !in Final(run).ops && r in Final(later).ops && ReadDone(c, Final(later).ops[r])
      ==> Covers(ReadResult(Final(later).ops[r]), clock)
  }

  lemma {:induction false} MergedCoversIff(replies: seq<seq<Version>>, clock: Clock)
    ensures Covers(MergedReplies(replies), clock) <==> exists i :: 0 <= i < |replies| && Covers(replies[i], clock)
  {
    FoldCovers([], Flatten(replies), clock);
    FlattenMembers(replies);
    if Covers(Flatten(replies), clock) {
      var v :| v in Flatten(replies) && Leq(clock, v.clock);
      var i :| 0 <= i < |replies| && v in replies[i];
      assert Covers(replies[i], clock);
    }
    if i :| 0 <= i < |replies| && Covers(replies[i], clock) {
      MergedCoversReply(replies, i, clock);
    }
  }

  /** A holder that answers a read started later shows the clock. */
  lemma {:induction false} HoldersShow(c: Config, run: Run, later: Run, r: OpId, t: NodeId, clock: Clock)
    requires Legal(c, run) && Legal(c, later) && Extends(later, run)
    requires r !in Final(run).ops && r in Final(later).ops && t in Final(later).ops[r].served
    requires Covers(Rep(Final(run), t), clock)
    ensures Covers(Final(later).ops[r].served[t], clock)
    decreases later
  {
    var s := Final(later.prev);
    ServedChange(c, s, later.step, r, t);
    if r in s.ops && t in s.ops[r].served && Final(later).ops[r].served[t] == s.ops[r].served[t] {
      HoldersShow(c, run, later.prev, r, t, clock);
    } else {
      CoverageIsForever(c, run, later.prev, t, clock);
    }
  }

  lemma {:induction false} EnoughHoldersShow(c: Config, run: Run, later: Run, r: OpId, clock: Clock)
    requires Legal(c, run) && Legal(c, later) && Extends(later, run) && Distinct(c.prefs)
    requires r !in Final(run).ops && r in Final(later).ops && ReadDone(c, Final(later).ops[r])
    requires |Holders(c, Final(run), clock)| > |c.prefs| - ReadThreshold(c)
    ensures Covers(ReadResult(Final(later).ops[r]), clock)
  {
    var op := Final(later).ops[r];
    InvariantHolds(c, later);
    assert WellFormedOp(c, op);
    var holders, readers := Holders(c, Final(run), clock), Elems(op.collected);
    DistinctSize(c.prefs);
    DistinctSize(op.collected);
    SetsOverlap(Elems(c.prefs), holders, readers);
    var t :| t in holders && t in readers;
    var i :| 0 <= i < |op.collected| && op.collected[i] == t;
    HoldersShow(c, run, later, r, t, clock);
    MergedCoversReply(Replies(op), i, clock);
  }

  /** The replicas that do not cover it are a read quorum, and one can be assembled. */
  lemma {:induction false} TooFewHoldersHide(c: Config, run: Run, clock: Clock) returns (later: Run, r: OpId)
    requires Legal(c, run) && Distinct(c.prefs)
    requires |Holders(c, Final(run), clock)| <= |c.prefs| - ReadThreshold(c)
    ensures Legal(c, later) && Extends(later, run)
    ensures r !in Final(run).ops && r in Final(later).ops && ReadDone(c, Final(later).ops[r])
    ensures !Covers(ReadResult(Final(later).ops[r]), clock)
  {
    var s := Final(run);
    var others := KeepIn(c.prefs, Elems(c.prefs) - Holders(c, s, clock));
    OthersSize(c, s, clock);
    var from := others[..ReadThreshold(c)];
    r := FreshId(s.ops.Keys);
    later := ReadBy(c, run, r, "", None, from);
    var replies := Replies(Final(later).ops[r]);
    forall i | 0 <= i < |replies|
      ensures !Covers(replies[i], clock)
    {
      assert from[i] in others && replies[i] == Rep(s, from[i]);
    }
    MergedCoversIff(replies, clock);
  }

  lemma {:induction false} KeepInSize(nodes: seq<NodeId>, keep: set<NodeId>)
    requires Distinct(nodes) && keep <= Elems(nodes)
    ensures Elems(KeepIn(nodes, keep)) == keep && |KeepIn(nodes, keep)| == |keep|
  {
    KeepInMembers(nodes, keep);
    forall t
      ensures t in Elems(KeepIn(nodes, keep)) <==> t in keep
    {
      assert t in KeepIn(nodes, keep) <==> t in nodes && t in keep;
    }
    assert Elems(KeepIn(nodes, keep)) == keep;
    KeepInDistinct(nodes, keep);
    DistinctSize(KeepIn(nodes, keep));
  }

  lemma {:induction false} OthersSize(c: Config, s: State, clock: Clock)
    requires Distinct(c.prefs)
    requires |Holders(c, s, clock)| <= |c.prefs| - ReadThreshold(c)
    ensures var others := KeepIn(c.prefs, Elems(c.prefs) - Holders(c, s, clock));
            && Distinct(others) && |others| >= ReadThreshold(c)
            && forall t :: t in others ==> t in c.prefs && !Covers(Rep(s, t), clock)
  {
    var all, holders := Elems(c.prefs), Holders(c, s, clock);
    var rest := all - holders;
    DistinctSize(c.prefs);
    KeepInDistinct(c.prefs, rest);
    KeepInSize(c.prefs, rest);
    assert |rest| == |all| - |holders|;
    forall t | t in KeepIn(c.prefs, rest)
      ensures t in c.prefs && !Covers(Rep(s, t), clock)
    {
      assert t in Elems(KeepIn(c.prefs, rest));
    }
  }

  /** Every later read is bound to show a clock exactly when fewer replicas miss it than
      a read quorum needs. An acknowledgement matters only as one way to get there. */
  lemma {:induction false} ShownForeverIff(c: Config, run: Run, clock: Clock)
    requires Legal(c, run) && Distinct(c.prefs)
    ensures ShownForever(c, run, clock) <==> |Holders(c, Final(run), clock)| > |c.prefs| - ReadThreshold(c)
  {
    if |Holders(c, Final(run), clock)| > |c.prefs| - ReadThreshold(c) {
      forall later, r | Legal(c, later) && Extends(later, run)
        && r !in Final(run).ops && r in Final(later).ops && ReadDone(c, Final(later).ops[r])
        ensures Covers(ReadResult(Final(later).ops[r]), clock)
      {
        EnoughHoldersShow(c, run, later, r, clock);
      }
    } else {
      var later, r := TooFewHoldersHide(c, run, clock);
      assert ReadDone(c, Final(later).ops[r]);
    }
  }

  /** An acknowledgement under R + W > N is one way to get there. */
  lemma {:induction false} AckedIsHeld(c: Config, run: Run, o: OpId)
    requires ValidConfig(c) && Overlapping(c) && Legal(c, run) && IsAcked(c, Final(run), o)
    ensures |Holders(c, Final(run), ClockOf(Final(run), o))| > |c.prefs| - ReadThreshold(c)
  {
    var s := Final(run);
    InvariantHolds(c, run);
    assert WellFormedOp(c, s.ops[o]);
    var acks := WritingOf(s, o).acks;
    forall t | t in acks
      ensures t in Holders(c, s, ClockOf(s, o))
    {
      assert LandedAt(s, o, t);
    }
    SubsetSize(acks, Holders(c, s, ClockOf(s, o)));
  }
}
