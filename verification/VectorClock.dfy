/** Vector clocks, versions and the one-version-at-a-time merge of sibling lists. */
module VectorClocks {
  import opened Basics

  type NodeId = string
  type Value = string

  /** Per node, how many writes it has coordinated; a missing entry counts as zero. */
  type Clock = map<NodeId, nat>

  datatype Version = Version(value: Value, clock: Clock)

  datatype Ordering = Equal | Dominates | Dominated | Concurrent

  function Get(c: Clock, node: NodeId): nat {
    if node in c then c[node] else 0
  }

  /** The causal order, over all node names and not only the ones a clock mentions. */
  ghost predicate Leq(a: Clock, b: Clock) {
    forall node: NodeId {:trigger Get(a, node), Get(b, node)} :: Get(a, node) <= Get(b, node)
  }

  ghost predicate Lt(a: Clock, b: Clock) {
    Leq(a, b) && !Leq(b, a)
  }

  /** Clock equality; the two maps may still differ in entries that are zero. */
  ghost predicate SameClock(a: Clock, b: Clock) {
    Leq(a, b) && Leq(b, a)
  }

  /** Only the union of the two key sets is inspected; the contract says that
      this decides the order over all nodes. */
  function Compare(a: Clock, b: Clock): (o: Ordering)
    ensures o.Equal? <==> SameClock(a, b)
    ensures o.Dominates? <==> Lt(b, a)
    ensures o.Dominated? <==> Lt(a, b)
    ensures o.Concurrent? <==> !Leq(a, b) && !Leq(b, a)
  {
    var keys := a.Keys + b.Keys;
    var selfGe := forall k | k in keys :: Get(a, k) >= Get(b, k);
    var otherGe := forall k | k in keys :: Get(b, k) >= Get(a, k);
    assert selfGe ==> Leq(b, a) by {
      if selfGe {
        forall k: NodeId ensures Get(b, k) <= Get(a, k) {
          assert k in keys || Get(b, k) == 0;
        }
      }
    }
    assert otherGe ==> Leq(a, b) by {
      if otherGe {
        forall k: NodeId ensures Get(a, k) <= Get(b, k) {
          assert k in keys || Get(a, k) == 0;
        }
      }
    }
    if selfGe && otherGe then Equal
    else if selfGe then Dominates
    else if otherGe then Dominated
    else Concurrent
  }

  predicate DominatesOrEqual(a: Clock, b: Clock)
    ensures DominatesOrEqual(a, b) <==> Leq(b, a)
  {
    var o := Compare(a, b);
    o.Dominates? || o.Equal?
  }

  function Incremented(c: Clock, node: NodeId): (r: Clock)
    ensures Lt(c, r)
    ensures Get(r, node) == Get(c, node) + 1
    ensures forall k: NodeId :: k != node ==> Get(r, k) == Get(c, k)
  {
    var r := c[node := Get(c, node) + 1];
    assert Get(c, node) < Get(r, node);
    r
  }

  /** Entry-wise maximum of two clocks. */
  function Join(a: Clock, b: Clock): (r: Clock)
    ensures forall k: NodeId :: Get(r, k) == Max(Get(a, k), Get(b, k))
  {
    map k | k in a.Keys + b.Keys :: Max(Get(a, k), Get(b, k))
  }

  /** Specification of the merge of a list of clocks. */
  function Merged(clocks: seq<Clock>): Clock {
    if clocks == [] then map[]
    else Join(Merged(clocks[..|clocks| - 1]), clocks[|clocks| - 1])
  }

  /** All entries of `c` but those in `todo` have been merged into `before`. */
  ghost predicate PartlyJoined(before: Clock, c: Clock, todo: set<NodeId>, result: Clock) {
    && result.Keys == before.Keys + (c.Keys - todo)
    && forall k {:trigger Get(result, k)} ::
         Get(result, k) == if k in todo then Get(before, k) else Max(Get(before, k), Get(c, k))
  }

  lemma JoinOneMore(before: Clock, c: Clock, todo: set<NodeId>, result: Clock, k: NodeId)
    requires PartlyJoined(before, c, todo, result) && todo <= c.Keys && k in todo
    ensures PartlyJoined(before, c, todo - {k}, result[k := Max(Get(result, k), c[k])])
  {
    var next := result[k := Max(Get(result, k), c[k])];
    forall j
      ensures Get(next, j) == if j in todo - {k} then Get(before, j) else Max(Get(before, j), Get(c, j))
    {
      assert Get(result, j) == if j in todo then Get(before, j) else Max(Get(before, j), Get(c, j));
    }
  }

  lemma JoinComplete(before: Clock, c: Clock, result: Clock)
    requires PartlyJoined(before, c, {}, result)
    ensures result == Join(before, c)
  {
    forall k | k in result
      ensures result[k] == Join(before, c)[k]
    {
      assert Get(result, k) == Max(Get(before, k), Get(c, k));
    }
  }

  /** The nested loop of the source: for every clock, for every entry, keep the maximum. */
  method Merge(clocks: seq<Clock>) returns (result: Clock)
    ensures result == Merged(clocks)
  {
    result := map[];
    for i := 0 to |clocks|
      invariant result == Merged(clocks[..i])
    {
      ghost var before := result;
      var c := clocks[i];
      var todo := c.Keys;
      while todo != {}
        invariant todo <= c.Keys && PartlyJoined(before, c, todo, result)
        decreases todo
      {
        var k :| k in todo;
        JoinOneMore(before, c, todo, result, k);
        result := result[k := Max(Get(result, k), c[k])];
        todo := todo - {k};
      }
      JoinComplete(before, c, result);
      assert clocks[..i + 1][..i] == clocks[..i];
    }
    assert clocks[..|clocks|] == clocks;
  }

  lemma LeqTransitive(a: Clock, b: Clock, c: Clock)
    requires Leq(a, b) && Leq(b, c)
    ensures Leq(a, c)
  {
    forall k: NodeId ensures Get(a, k) <= Get(c, k) {
      assert Get(a, k) <= Get(b, k) <= Get(c, k);
    }
  }

  lemma JoinIsLeastUpperBound(a: Clock, b: Clock, bound: Clock)
    ensures Leq(a, Join(a, b)) && Leq(b, Join(a, b))
    ensures Leq(a, bound) && Leq(b, bound) ==> Leq(Join(a, b), bound)
  {
    if Leq(a, bound) && Leq(b, bound) {
      forall k: NodeId ensures Get(Join(a, b), k) <= Get(bound, k) {
        assert Get(a, k) <= Get(bound, k) && Get(b, k) <= Get(bound, k);
      }
    }
  }

  /** Merging yields the least upper bound of the clocks. */
  lemma {:induction false} MergedIsLeastUpperBound(clocks: seq<Clock>, bound: Clock)
    ensures forall c | c in clocks :: Leq(c, Merged(clocks))
    ensures (forall c | c in clocks :: Leq(c, bound)) ==> Leq(Merged(clocks), bound)
  {
    if clocks != [] {
      var last := |clocks| - 1;
      MergedIsLeastUpperBound(clocks[..last], bound);
      JoinIsLeastUpperBound(Merged(clocks[..last]), clocks[last], bound);
      forall c | c in clocks
        ensures Leq(c, Merged(clocks))
      {
        if c in clocks[..last] {
          LeqTransitive(c, Merged(clocks[..last]), Merged(clocks));
        }
      }
    }
  }

  /** Every positive entry of a merge comes from one of the clocks. */
  lemma {:induction false} MergedEntryHasSource(clocks: seq<Clock>, node: NodeId) returns (source: Clock)
    requires Get(Merged(clocks), node) > 0
    ensures source in clocks && Get(source, node) == Get(Merged(clocks), node)
  {
    var last := |clocks| - 1;
    if Get(clocks[last], node) == Get(Merged(clocks), node) {
      source := clocks[last];
    } else {
      source := MergedEntryHasSource(clocks[..last], node);
    }
  }

  /** The existing siblings an incoming clock does not supersede. */
  function Survivors(existing: seq<Version>, incoming: Clock): seq<Version> {
    if existing == [] then []
    else
      var last := existing[|existing| - 1];
      var rest := Survivors(existing[..|existing| - 1], incoming);
      if Compare(incoming, last.clock).Dominates? then rest else rest + [last]
  }

  /** Specification of `Reconcile`. */
  function Reconciled(existing: seq<Version>, incoming: Version): seq<Version> {
    if exists v | v in existing :: DominatesOrEqual(v.clock, incoming.clock) then existing
    else Survivors(existing, incoming.clock) + [incoming]
  }

  /** The source's loop: stale or duplicate versions return the list unchanged,
      otherwise superseded siblings are filtered out and the version appended. */
  method Reconcile(existing: seq<Version>, incoming: Version) returns (result: seq<Version>)
    ensures result == Reconciled(existing, incoming)
  {
    for i := 0 to |existing|
      invariant forall j | 0 <= j < i :: !DominatesOrEqual(existing[j].clock, incoming.clock)
    {
      if DominatesOrEqual(existing[i].clock, incoming.clock) {
        return existing;
      }
    }
    var survivors := [];
    for i := 0 to |existing|
      invariant survivors == Survivors(existing[..i], incoming.clock)
    {
      assert existing[..i + 1][..i] == existing[..i];
      if !Compare(incoming.clock, existing[i].clock).Dominates? {
        survivors := survivors + [existing[i]];
      }
    }
    assert existing[..|existing|] == existing;
    return survivors + [incoming];
  }
}
