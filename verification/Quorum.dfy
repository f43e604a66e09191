/** The quorum loop, clamped thresholds, and the overlap they guarantee. */
module Quorums {
  import opened Basics
  import opened VectorClocks
  import opened Antichains

  datatype Outcome<+T> = Success(value: T) | Failure

  /** A configured R or W never asks for more replicas than the list has. */
  function Threshold(configured: nat, replicas: nat): nat {
    Min(configured, replicas)
  }

  /** A count reaches the threshold when it reaches the configured number or when there
      is no further replica to count. */
  lemma {:induction false} ReachesThreshold(configured: nat, replicas: nat, count: nat)
    ensures count >= Threshold(configured, replicas) <==> count >= configured || count >= replicas
  {}

  function Successes<T>(completions: seq<Outcome<T>>): seq<T> {
    if completions == [] then []
    else
      var rest := Successes(completions[..|completions| - 1]);
      match completions[|completions| - 1]
      case Success(value) => rest + [value]
      case Failure => rest
  }

  /** The positions of the successes. */
  ghost function SuccessesAt<T>(completions: seq<Outcome<T>>): set<nat> {
    set i: nat | i < |completions| && completions[i].Success?
  }

  lemma {:induction false} SuccessesAtNext<T>(completions: seq<Outcome<T>>)
    requires completions != []
    ensures var last := |completions| - 1;
            && last !in SuccessesAt(completions[..last])
            && SuccessesAt(completions)
               == SuccessesAt(completions[..last]) + if completions[last].Success? then {last} else {}
  {
    var last := |completions| - 1;
    forall i: nat
      ensures i in SuccessesAt(completions) <==>
              i in SuccessesAt(completions[..last]) || (i == last && completions[last].Success?)
    {}
  }

  lemma {:induction false} SuccessesCounted<T>(completions: seq<Outcome<T>>)
    ensures |Successes(completions)| == |SuccessesAt(completions)|
  {
    if completions == [] {
      assert SuccessesAt(completions) == {};
    } else {
      SuccessesCounted(completions[..|completions| - 1]);
      SuccessesAtNext(completions);
    }
  }

  /** Nothing but the successes is kept, and each stands where it was counted. */
  lemma {:induction false} SuccessesInOrder<T>(completions: seq<Outcome<T>>, i: nat)
    requires i < |completions| && completions[i].Success?
    ensures |Successes(completions)| == |SuccessesAt(completions)|
    ensures var k := |SuccessesAt(completions[..i])|;
            k < |Successes(completions)| && Successes(completions)[k] == completions[i].value
  {
    SuccessesCounted(completions);
    SuccessesCounted(completions[..i]);
    SuccessesPrefix(completions, i + 1);
    assert completions[..i + 1][..i] == completions[..i];
    assert Successes(completions[..i + 1]) == Successes(completions[..i]) + [completions[i].value];
  }

  lemma {:induction false} SuccessesPrefix<T>(completions: seq<Outcome<T>>, k: nat)
    requires k <= |completions|
    ensures Successes(completions[..k]) <= Successes(completions)
    decreases |completions|
  {
    if k == |completions| {
      assert completions[..k] == completions;
    } else {
      var front := completions[..|completions| - 1];
      SuccessesPrefix(front, k);
      assert front[..k] == completions[..k];
    }
  }

  /** `completions` lists the futures in the order they finish. Failures do not
      count, and the loop stops at the first success that reaches the threshold;
      whatever finishes later is discarded. Since the test follows an append, a
      threshold below one still keeps one success. */
  method QuorumOp<T>(completions: seq<Outcome<T>>, threshold: int) returns (successes: seq<T>)
    ensures successes <= Successes(completions)
    ensures |successes| == Min(|Successes(completions)|, Max(threshold, 1))
  {
    successes := [];
    for i := 0 to |completions|
      invariant successes == Successes(completions[..i])
      invariant |successes| < Max(threshold, 1)
    {
      assert completions[..i + 1][..i] == completions[..i];
      SuccessesPrefix(completions, i + 1);
      if completions[i].Success? {
        successes := successes + [completions[i].value];
        if |successes| >= threshold {
          break;
        }
      }
    }
    assert completions[..|completions|] == completions;
  }

  // ----- overlap

  lemma {:induction false} SetsOverlap<T>(all: set<T>, a: set<T>, b: set<T>)
    requires a <= all && b <= all && |a| + |b| > |all|
    ensures a * b != {}
  {
    if a * b == {} {
      assert |a + b| == |a| + |b|;
      SubsetSize(a + b, all);
    }
  }

  ghost predicate AcceptedQuorum(replicas: seq<NodeId>, configured: nat, quorum: set<NodeId>) {
    quorum <= Elems(replicas) && |quorum| >= Threshold(configured, |replicas|)
  }

  /** Any set of read responders and any set of write ackers the quorum loops accept
      share a replica if R + W exceeds the length of the list; both thresholds are
      clamped to that length. The write set may come from the live part only. */
  lemma {:induction false} ClampedQuorumsOverlap(replicas: seq<NodeId>, r: nat, w: nat,
                              readers: set<NodeId>, writers: set<NodeId>)
    requires Distinct(replicas) && 1 <= |replicas|
    requires 1 <= r && 1 <= w && r + w > |replicas|
    requires AcceptedQuorum(replicas, r, readers) && AcceptedQuorum(replicas, w, writers)
    ensures readers * writers != {}
  {
    DistinctSize(replicas);
    SetsOverlap(Elems(replicas), readers, writers);
  }

  /** If it does not exceed it there are disjoint accepted quorums, so the condition is exact. */
  lemma {:induction false} SmallQuorumsCanMiss(replicas: seq<NodeId>, r: nat, w: nat)
    returns (readers: set<NodeId>, writers: set<NodeId>)
    requires Distinct(replicas) && r + w <= |replicas|
    ensures AcceptedQuorum(replicas, r, readers) && AcceptedQuorum(replicas, w, writers)
    ensures readers * writers == {}
  {
    var a, b := replicas[..r], replicas[r..r + w];
    readers, writers := Elems(a), Elems(b);
    DistinctSize(a);
    DistinctSize(b);
    forall x | x in readers
      ensures x !in writers
    {
      var i :| 0 <= i < r && replicas[i] == x;
    }
  }

  // ----- merging replies

  function Flatten(replies: seq<seq<Version>>): seq<Version> {
    if replies == [] then []
    else Flatten(replies[..|replies| - 1]) + replies[|replies| - 1]
  }

  lemma {:induction false} FlattenMembers(replies: seq<seq<Version>>)
    ensures forall v :: v in Flatten(replies) <==> exists i :: 0 <= i < |replies| && v in replies[i]
  {
    if replies != [] {
      var front := replies[..|replies| - 1];
      FlattenMembers(front);
      forall v | v in Flatten(front)
        ensures exists i :: 0 <= i < |replies| && v in replies[i]
      {
        var i :| 0 <= i < |front| && v in front[i];
        assert v in replies[i];
      }
      forall i, v | 0 <= i < |replies| && v in replies[i]
        ensures v in Flatten(replies)
      {
        if i < |front| {
          assert v in front[i];
        }
      }
    }
  }

  /** All replies reconciled one version at a time, in arrival order. */
  function MergedReplies(replies: seq<seq<Version>>): seq<Version> {
    Fold([], Flatten(replies))
  }

  lemma {:induction false} FoldUpTo(before: seq<Version>, versions: seq<Version>, j: nat)
    requires j < |versions|
    ensures Fold(before, versions[..j + 1]) == Reconciled(Fold(before, versions[..j]), versions[j])
  {
    assert versions[..j + 1] == versions[..j] + [versions[j]];
    FoldOneMore(before, versions[..j], versions[j]);
  }

  lemma {:induction false} MergedUpTo(replies: seq<seq<Version>>, i: nat)
    requires i < |replies|
    ensures MergedReplies(replies[..i + 1]) == Fold(MergedReplies(replies[..i]), replies[i])
  {
    assert replies[..i + 1][..i] == replies[..i];
    FoldConcat([], Flatten(replies[..i]), replies[i]);
  }

  /** The two nested loops of a merged read. */
  method MergeReplies(replies: seq<seq<Version>>) returns (merged: seq<Version>)
    ensures merged == MergedReplies(replies)
  {
    merged := [];
    for i := 0 to |replies|
      invariant merged == MergedReplies(replies[..i])
    {
      ghost var before := merged;
      var versions := replies[i];
      for j := 0 to |versions|
        invariant merged == Fold(before, versions[..j])
      {
        FoldUpTo(before, versions, j);
        merged := Reconcile(merged, versions[j]);
      }
      assert versions[..|versions|] == versions;
      MergedUpTo(replies, i);
    }
    assert replies[..|replies|] == replies;
  }

  ghost predicate SameUnion(xs: seq<seq<Version>>, ys: seq<seq<Version>>) {
    Elems(Flatten(xs)) == Elems(Flatten(ys))
  }

  /** The merged read is the maximal antichain of the union of the replies, so
      neither arrival order nor which replica carried which sibling matters. */
  lemma {:induction false} MergedReadIndependent(xs: seq<seq<Version>>, ys: seq<seq<Version>>)
    requires SameUnion(xs, ys)
    ensures MaximalAntichain(MergedReplies(xs), Elems(Flatten(xs)))
    ensures SameClocks(MergedReplies(xs), MergedReplies(ys))
  {
    FoldIsMaximalAntichain(Flatten(xs));
    FoldOrderIrrelevant(Flatten(xs), Flatten(ys));
  }

  lemma {:induction false} FirstReply(replies: seq<seq<Version>>, n: nat, v: Version) returns (i: nat)
    requires FirstOfItsClock(Flatten(replies), n, v)
    ensures i < |replies| && v in replies[i]
    ensures forall k, w :: 0 <= k < i && w in replies[k] ==> !SameClock(w.clock, v.clock)
  {
    var k := |replies| - 1;
    var front := replies[..k];
    if n < |Flatten(front)| {
      assert forall j :: 0 <= j <= n ==> Flatten(front)[j] == Flatten(replies)[j];
      i := FirstReply(front, n, v);
    } else {
      i := k;
      assert v == replies[k][n - |Flatten(front)|];
      FlattenMembers(front);
      forall m, w | 0 <= m < i && w in replies[m]
        ensures !SameClock(w.clock, v.clock)
      {
        assert w in front[m] && w in Flatten(front);
        var j :| 0 <= j < |Flatten(front)| && Flatten(front)[j] == w;
        assert Flatten(replies)[j] == w;
      }
    }
  }

  /** If replicas answer with different values under one clock, the earliest reply wins. */
  lemma {:induction false} EarliestReplyWins(replies: seq<seq<Version>>, v: Version) returns (i: nat)
    requires v in MergedReplies(replies)
    ensures i < |replies| && v in replies[i]
    ensures forall k, w :: 0 <= k < i && w in replies[k] ==> !SameClock(w.clock, v.clock)
  {
    var n := FoldKeepsFirst(Flatten(replies), v);
    i := FirstReply(replies, n, v);
  }

  datatype Response = Found(version: Version) | NotFound | Conflict(versions: seq<Version>) | Unavailable

  /** What a read answers once enough replicas have replied, or could not be reached. */
  function ReadResponse(replies: seq<seq<Version>>, threshold: nat): Response {
    if |replies| < threshold then Unavailable
    else
      var merged := MergedReplies(replies);
      if merged == [] then NotFound
      else if |merged| == 1 then Found(merged[0])
      else Conflict(merged)
  }

  /** The response by cases of the union of the replies: unavailable exactly when there
      are too few, not found exactly when nothing was returned, and a conflict exactly
      when two maximal clocks differ. A found version dominates or equals every version
      any replica returned; a conflict reports the maximal antichain of all of them. */
  lemma {:induction false} ReadResponseMeaning(replies: seq<seq<Version>>, threshold: nat)
    ensures ReadResponse(replies, threshold).Unavailable? <==> |replies| < threshold
    ensures |replies| >= threshold ==>
              && (ReadResponse(replies, threshold).NotFound? <==> Flatten(replies) == [])
              && (ReadResponse(replies, threshold).Conflict? <==> TwoMaximal(Elems(Flatten(replies))))
    ensures var response := ReadResponse(replies, threshold);
            response.Found? ==>
              && response.version in Flatten(replies)
              && forall v :: v in Flatten(replies) ==> Leq(v.clock, response.version.clock)
    ensures var response := ReadResponse(replies, threshold);
            response.Conflict? ==> MaximalAntichain(response.versions, Elems(Flatten(replies)))
  {
    var all := Flatten(replies);
    var merged := MergedReplies(replies);
    FoldIsMaximalAntichain(all);
    FoldProperties([], all);
    ConflictIffTwoMaximal(merged, Elems(all));
    forall v | v in all
      ensures Covers(merged, v.clock)
    {
      FoldCovers([], all, v.clock);
      assert Leq(v.clock, v.clock);
    }
    if all != [] {
      assert Covers(merged, all[0].clock);
      assert merged != [];
    }
    if |merged| == 1 {
      forall v | v in all
        ensures Leq(v.clock, merged[0].clock)
      {
        assert Covers(merged, v.clock);
      }
      assert merged[0] in all;
    }
  }

  // ----- the version a put writes

  function Clocks(vs: seq<Version>): seq<Clock> {
    seq(|vs|, i requires 0 <= i < |vs| => vs[i].clock)
  }

  /** Merge everything the read quorum returned, then count one more write of the coordinator. */
  function NextVersion(coordinator: NodeId, value: Value, replies: seq<seq<Version>>): Version {
    Version(value, Incremented(Merged(Clocks(MergedReplies(replies))), coordinator))
  }

  lemma {:induction false} MergeBoundsCovered(vs: seq<Version>, c: Clock)
    requires Covers(vs, c)
    ensures Leq(c, Merged(Clocks(vs)))
  {
    var v :| v in vs && Leq(c, v.clock);
    var i :| 0 <= i < |vs| && vs[i] == v;
    assert Clocks(vs)[i] == v.clock;
    MergedIsLeastUpperBound(Clocks(vs), v.clock);
    assert v.clock in Clocks(vs);
    LeqTransitive(c, v.clock, Merged(Clocks(vs)));
  }

  lemma {:induction false} LeqLt(a: Clock, b: Clock, c: Clock)
    requires Leq(a, b) && Lt(b, c)
    ensures Lt(a, c)
  {
    LeqTransitive(a, b, c);
    if Leq(c, a) {
      LeqTransitive(c, a, b);
    }
  }

  /** The new clock is strictly above every clock the read quorum covers. */
  lemma {:induction false} NextVersionDominates(coordinator: NodeId, value: Value, replies: seq<seq<Version>>, c: Clock)
    requires Covers(MergedReplies(replies), c)
    ensures Lt(c, NextVersion(coordinator, value, replies).clock)
  {
    var merged := Merged(Clocks(MergedReplies(replies)));
    MergeBoundsCovered(MergedReplies(replies), c);
    LeqLt(c, merged, Incremented(merged, coordinator));
  }

  lemma {:induction false} MergedCountsAll(replies: seq<seq<Version>>, u: Version, node: NodeId)
    requires u in Flatten(replies)
    ensures Get(u.clock, node) <= Get(Merged(Clocks(MergedReplies(replies))), node)
  {
    FoldCovers([], Flatten(replies), u.clock);
    assert Leq(u.clock, u.clock);
    MergeBoundsCovered(MergedReplies(replies), u.clock);
  }

  lemma {:induction false} MergedCountIsReplied(replies: seq<seq<Version>>, node: NodeId) returns (u: Version)
    requires Get(Merged(Clocks(MergedReplies(replies))), node) > 0
    ensures u in Flatten(replies) && Get(u.clock, node) == Get(Merged(Clocks(MergedReplies(replies))), node)
  {
    var merged := MergedReplies(replies);
    var source := MergedEntryHasSource(Clocks(merged), node);
    var i :| 0 <= i < |merged| && Clocks(merged)[i] == source;
    u := merged[i];
    FoldProperties([], Flatten(replies));
    assert u in merged;
  }

  /** What a put writes, entry by entry: the client's value, and a clock that counts for
      each node what the replies count at most, and one more for the coordinator. */
  lemma {:induction false} NextVersionExact(coordinator: NodeId, value: Value, replies: seq<seq<Version>>, node: NodeId)
    ensures NextVersion(coordinator, value, replies).value == value
    ensures var more := if node == coordinator then 1 else 0;
            var count := Get(NextVersion(coordinator, value, replies).clock, node) - more;
            && count >= 0
            && (forall u :: u in Flatten(replies) ==> Get(u.clock, node) <= count)
            && (count > 0 ==> exists u :: u in Flatten(replies) && Get(u.clock, node) == count)
  {
    forall u | u in Flatten(replies)
      ensures Get(u.clock, node) <= Get(Merged(Clocks(MergedReplies(replies))), node)
    {
      MergedCountsAll(replies, u, node);
    }
    if Get(Merged(Clocks(MergedReplies(replies))), node) > 0 {
      var u := MergedCountIsReplied(replies, node);
    }
  }

  /** Any version in any reply is covered by the merged read. */
  lemma {:induction false} MergedCoversReply(replies: seq<seq<Version>>, i: nat, c: Clock)
    requires i < |replies| && Covers(replies[i], c)
    ensures Covers(MergedReplies(replies), c)
  {
    var v :| v in replies[i] && Leq(c, v.clock);
    FlattenMembers(replies);
    assert v in Flatten(replies);
    assert Covers(Flatten(replies), c);
    FoldCovers([], Flatten(replies), c);
  }

  lemma {:induction false} MergedMembers(replies: seq<seq<Version>>)
    ensures Antichain(MergedReplies(replies))
    ensures forall v :: v in MergedReplies(replies) ==> exists i :: 0 <= i < |replies| && v in replies[i]
  {
    FoldProperties([], Flatten(replies));
    FlattenMembers(replies);
  }
}
