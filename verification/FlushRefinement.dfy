/** A node's hint flush, as its code performs it, is a run of the replication protocol. */
module FlushRefinement {
  import opened Basics
  import opened VectorClocks
  import opened Antichains
  import opened Replication
  import opened Continuations
  import opened HintStores
  import opened Nodes

  /** The node's own replica of the key and, if it is the hint holder, the key's hints
      are those of the protocol state. */
  ghost predicate Represents(c: Config, s: State, node: Node, key: Key)
    reads node, node.hintStore
  {
    && Local(node.storage, key) == Rep(s, node.nodeId)
    && (c.spare == Some(node.nodeId) ==>
          forall t {:trigger Hints(s, t)} :: Hints(s, t) == Pending(node.hintStore.storage, t, key))
  }

  /** The state after the first `k` deliveries of a flush of `hints` to `t`. */
  ghost predicate Flushed(s: State, s': State, t: NodeId, hints: seq<Version>, outcome: nat -> Delivery, k: nat)
    requires k <= |hints|
  {
    && s'.ops == s.ops
    && s'.flush == (if k < |hints| then Some(Flush(t, hints[k..], false)) else None)
    && (k < |hints| ==> (t, hints[k]) in s'.flushSent)
    && Rep(s', t) == Fold(Rep(s, t), AppliedVersions(hints[..k], outcome))
    && Hints(s', t) == (if AnyConfirmed(k, outcome) then [] else hints)
    && (forall u {:trigger Rep(s', u)} :: u != t ==> Rep(s', u) == Rep(s, u))
    && (forall u {:trigger Hints(s', u)} :: u != t ==> Hints(s', u) == Hints(s, u))
  }

  /** One delivery: it lands or not, and its outcome is reported. */
  lemma {:induction false} Deliver(c: Config, run: Run, t: NodeId, todo: seq<Version>, delivery: Delivery)
    returns (next: Run)
    requires Legal(c, run) && todo != [] && Final(run).flush == Some(Flush(t, todo, false))
    requires (t, todo[0]) in Final(run).flushSent
    ensures Legal(c, next) && Extends(next, run)
    ensures var s, s' := Final(run), Final(next);
            && s'.ops == s.ops
            && s'.flush == (if |todo| > 1 then Some(Flush(t, todo[1..], false)) else None)
            && (|todo| > 1 ==> (t, todo[1]) in s'.flushSent)
            && s'.replicas == (if delivery.NotApplied?
                 then s.replicas else s.replicas[t := Reconciled(Rep(s, t), todo[0])])
            && s'.hints == (if delivery.Confirmed? then s.hints[t := []] else s.hints)
            && s'.lost == s.lost + (if delivery.Confirmed? then DroppedByClear(StoreAt(s, t, todo[0]), t) else {})
  {
    if delivery.NotApplied? {
      next := Take(c, run, FlushFails);
    } else {
      var half := Take(c, run, FlushLands(t, todo[0]));
      assert Final(half) == StoreAt(Final(run), t, todo[0]).(flush := Some(Flush(t, todo, true)));
      next := Take(c, half, if delivery.Confirmed? then FlushOk else FlushFails);
      DropIgnoresFlush(StoreAt(Final(run), t, todo[0]), Some(Flush(t, todo, true)), t);
      ExtendsTransitive(run, half, next);
    }
  }

  lemma {:induction false} DropIgnoresFlush(s: State, flush: Option<Flush>, t: NodeId)
    ensures DroppedByClear(s.(flush := flush), t) == DroppedByClear(s, t)
  {
    assert Hints(s.(flush := flush), t) == Hints(s, t) && Rep(s.(flush := flush), t) == Rep(s, t);
    forall o: OpId
      ensures (o, t) in DroppedByClear(s.(flush := flush), t) <==> (o, t) in DroppedByClear(s, t)
    {
      assert IsIssued(s.(flush := flush), o) <==> IsIssued(s, o);
    }
  }

  lemma {:induction false} FlushedNext(s: State, s1: State, s2: State, t: NodeId, hints: seq<Version>,
                                       outcome: nat -> Delivery, k: nat)
    requires k < |hints| && Flushed(s, s1, t, hints, outcome, k) && s2.ops == s1.ops
    requires s2.flush == (if |hints| - k > 1 then Some(Flush(t, hints[k..][1..], false)) else None)
    requires |hints| - k > 1 ==> (t, hints[k..][1]) in s2.flushSent
    requires s2.replicas ==
             if outcome(k).NotApplied? then s1.replicas else s1.replicas[t := Reconciled(Rep(s1, t), hints[k])]
    requires s2.hints == if outcome(k).Confirmed? then s1.hints[t := []] else s1.hints
    ensures Flushed(s, s2, t, hints, outcome, k + 1)
  {
    AppliedNext(Rep(s, t), hints, outcome, k);
    assert hints[k..][1..] == hints[k + 1..];
    forall u | u != t
      ensures Rep(s2, u) == Rep(s, u) && Hints(s2, u) == Hints(s, u)
    {
      assert Rep(s1, u) == Rep(s, u) && Hints(s1, u) == Hints(s, u);
    }
  }

  lemma {:induction false} DeliverAll(c: Config, s: State, run: Run, t: NodeId, hints: seq<Version>,
                                      outcome: nat -> Delivery, k: nat)
    returns (next: Run)
    requires Legal(c, run) && k <= |hints| && Flushed(s, Final(run), t, hints, outcome, k)
    ensures Legal(c, next) && Extends(next, run) && Flushed(s, Final(next), t, hints, outcome, |hints|)
    decreases |hints| - k
  {
    next := run;
    if k < |hints| {
      var half := Deliver(c, run, t, hints[k..], outcome(k));
      FlushedNext(s, Final(run), Final(half), t, hints, outcome, k);
      next := DeliverAll(c, s, half, t, hints, outcome, k + 1);
      ExtendsTransitive(run, half, next);
    }
  }

  /** Whatever becomes of the deliveries, flushing a key is a run of the protocol. */
  lemma {:induction false} FlushRuns(c: Config, run: Run, t: NodeId, outcome: nat -> Delivery) returns (later: Run)
    requires Legal(c, run) && Final(run).flush.None? && c.spare.Some?
    ensures Legal(c, later) && Extends(later, run) && Final(later).flush.None?
    ensures var s, s' := Final(run), Final(later);
            && s'.ops == s.ops
            && KeyFlushed(Rep(s, t), Rep(s', t), Hints(s, t), Hints(s', t), outcome)
            && (forall u {:trigger Rep(s', u)} :: u != t ==> Rep(s', u) == Rep(s, u))
            && (forall u {:trigger Hints(s', u)} :: u != t ==> Hints(s', u) == Hints(s, u))
  {
    var s := Final(run);
    var hints := Hints(s, t);
    assert hints[..|hints|] == hints;
    if hints == [] {
      later := run;
      assert !AnyConfirmed(0, outcome);
    } else {
      var started := Take(c, run, FlushStart(t));
      assert hints[0..] == hints && hints[..0] == [];
      assert Flushed(s, Final(started), t, hints, outcome, 0);
      later := DeliverAll(c, s, started, t, hints, outcome, 0);
      ExtendsTransitive(run, started, later);
    }
  }

  /** The code's flush from the hint holder to a replica, seen through any one key. */
  method FlushIsRun(holder: Node, peer: Node, outcome: Key -> nat -> Delivery, ghost key: Key, ghost c: Config,
                    ghost run: Run)
    returns (ghost later: Run)
    requires peer != holder && peer.nodeId != holder.nodeId && peer.hintStore != holder.hintStore
    requires c.spare == Some(holder.nodeId)
    requires Legal(c, run) && Final(run).flush.None?
    requires Represents(c, Final(run), holder, key) && Represents(c, Final(run), peer, key)
    modifies peer, holder.hintStore
    ensures Legal(c, later) && Extends(later, run)
    ensures Final(later).flush.None? && Final(later).ops == Final(run).ops
    ensures Represents(c, Final(later), holder, key) && Represents(c, Final(later), peer, key)
  {
    later := FlushRuns(c, run, peer.nodeId, outcome(key));
    assert Hints(Final(run), peer.nodeId) == Pending(holder.hintStore.storage, peer.nodeId, key);
    ghost var hints := holder.hintStore.storage;
    assert forall t {:trigger Hints(Final(run), t)} :: Hints(Final(run), t) == Pending(hints, t, key);
    holder.FlushHintsFor(peer, outcome);
    forall t
      ensures Hints(Final(later), t) == Pending(holder.hintStore.storage, t, key)
    {
      assert Hints(Final(run), t) == Pending(hints, t, key);
    }
  }
}
