/** The quorums can always be met: reads and writes stay possible in every reachable state. */
module Availability {
  import opened Basics
  import opened VectorClocks
  import opened Quorums
  import opened Replication
  import opened ReplicationInvariant
  import opened Convergence
  import opened Continuations
  import Nodes
  import opened PutRefinement

  /** What reaching the quorums means, in the configured numbers: a read is complete when
      R replies or all replies have come, and a put is acknowledged when W replicas or all
      of them have answered. */
  lemma {:induction false} QuorumsMeanCounts(c: Config, run: Run, o: OpId)
    requires Legal(c, run) && o in Final(run).ops
    ensures var op := Final(run).ops[o];
            && |op.collected| <= |c.prefs|
            && (ReadDone(c, op) <==> |op.collected| >= c.r || |op.collected| >= |c.prefs|)
    ensures IsIssued(Final(run), o) ==>
              var acks := WritingOf(Final(run), o).acks;
              && acks <= Elems(c.prefs)
              && (IsAcked(c, Final(run), o) <==> |acks| >= c.w || |acks| >= |c.prefs|)
  {
    var op := Final(run).ops[o];
    InvariantHolds(c, run);
    assert WellFormedOp(c, op);
    ReachesThreshold(c.r, |c.prefs|, |op.collected|);
    if IsIssued(Final(run), o) {
      ReachesThreshold(c.w, |c.prefs|, |WritingOf(Final(run), o).acks|);
    }
  }

  lemma {:induction false} FirstReaders(c: Config) returns (readers: seq<NodeId>)
    requires ValidConfig(c)
    ensures 1 <= ReadThreshold(c) <= |c.prefs| && 1 <= WriteThreshold(c) <= |c.prefs|
    ensures Distinct(readers) && Elems(readers) <= Elems(c.prefs) && |readers| == ReadThreshold(c)
  {
    readers := c.prefs[..ReadThreshold(c)];
    forall t | t in readers
      ensures t in Elems(c.prefs)
    {}
  }

  /** From every reachable state, whatever is in flight, some continuation completes a new
      get and acknowledges a new put of any value by any coordinator. */
  lemma {:induction false} AlwaysAvailable(c: Config, run: Run, p: NodeId, value: Value)
    returns (later: Run, get: OpId, put: OpId)
    requires ValidConfig(c) && Legal(c, run)
    ensures Legal(c, later) && Extends(later, run)
    ensures get !in Final(run).ops && get in Final(later).ops && ReadDone(c, Final(later).ops[get])
    ensures !ReadResponse(Replies(Final(later).ops[get]), ReadThreshold(c)).Unavailable?
    ensures put !in Final(run).ops && IsAcked(c, Final(later), put) && VersionOf(Final(later), put).value == value
  {
    var readers := FirstReaders(c);
    get := FreshId(Final(run).ops.Keys);
    var read := ReadBy(c, run, get, p, None, readers);
    put := FreshId(Final(read).ops.Keys);
    later := NewPutSucceeds(c, read, put, p, value);
    ExtendsTransitive(run, read, later);
    ReadResponseMeaning(Replies(Final(later).ops[get]), ReadThreshold(c));
  }

  lemma {:induction false} NewPutSucceeds(c: Config, run: Run, id: OpId, p: NodeId, value: Value) returns (later: Run)
    requires ValidConfig(c) && Legal(c, run) && id !in Final(run).ops
    ensures Legal(c, later) && Extends(later, run)
    ensures IsAcked(c, Final(later), id) && VersionOf(Final(later), id).value == value
    ensures forall o {:trigger Final(later).ops[o]} :: o in Final(run).ops ==>
              o in Final(later).ops && Final(later).ops[o] == Final(run).ops[o]
  {
    var readers := FirstReaders(c);
    AllSucceed(c.prefs);
    later := PutRuns(c, run, id, p, value, readers, {}, Reaching(Elems(c.prefs)), c.prefs);
    NextVersionExact(p, value, Replied(Final(run), readers), p);
  }

  lemma {:induction false} AllSucceed(prefs: seq<NodeId>)
    requires Distinct(prefs)
    ensures |Successes(Nodes.WriteOutcomes(prefs, Reaching(Elems(prefs)).ok))| == |prefs|
  {
    SuccessCount(prefs, Elems(prefs));
    assert Elems(prefs) * Elems(prefs) == Elems(prefs);
    DistinctSize(prefs);
  }
}
