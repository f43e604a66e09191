/** What membership changes do to replica lists, and what the walk returns. */
module RingStability {
  import opened Basics
  import opened VectorClocks
  import opened HashRings

  function Without(s: seq<NodeId>, x: NodeId): seq<NodeId> {
    if s == [] then []
    else
      var rest := Without(s[..|s| - 1], x);
      if s[|s| - 1] == x then rest else rest + [s[|s| - 1]]
  }

  lemma {:induction false} WithoutMembers(s: seq<NodeId>, x: NodeId)
    ensures forall y :: y in Without(s, x) <==> y in s && y != x
    ensures x !in s ==> Without(s, x) == s
  {
    if s != [] {
      WithoutMembers(s[..|s| - 1], x);
      assert s == s[..|s| - 1] + [s[|s| - 1]];
    }
  }

  /** Dropping a node and keeping first occurrences commute. */
  lemma {:induction false} DedupWithout(s: seq<NodeId>, x: NodeId)
    ensures Dedup(Without(s, x)) == Without(Dedup(s), x)
  {
    if s != [] {
      var front, last := s[..|s| - 1], s[|s| - 1];
      DedupWithout(front, x);
      WithoutMembers(Dedup(front), x);
      if last != x {
        assert Without(s, x)[..|Without(s, x)| - 1] == Without(front, x);
      }
    }
  }

  lemma {:induction false} WithoutPrefix(s: seq<NodeId>, x: NodeId, k: nat)
    requires k <= |s|
    ensures Without(s[..k], x) <= Without(s, x)
    decreases |s|
  {
    if k == |s| {
      assert s[..k] == s;
    } else {
      var front := s[..|s| - 1];
      WithoutPrefix(front, x, k);
      assert front[..k] == s[..k];
    }
  }

  lemma {:induction false} WithoutLength(s: seq<NodeId>, x: NodeId)
    requires Distinct(s)
    ensures |Without(s, x)| == if x in s then |s| - 1 else |s|
  {
    if s != [] {
      var front, last := s[..|s| - 1], s[|s| - 1];
      WithoutLength(front, x);
      assert s == front + [last];
      assert x in s <==> x in front || x == last;
    }
  }

  // ----- the points that remain

  function KeptPoints(points: seq<nat>, owner: map<nat, NodeId>, x: NodeId): seq<nat>
    requires forall p :: p in points ==> p in owner
  {
    if points == [] then []
    else
      var rest := KeptPoints(points[..|points| - 1], owner, x);
      if owner[points[|points| - 1]] == x then rest else rest + [points[|points| - 1]]
  }

  lemma {:induction false} KeptPointsMembers(points: seq<nat>, owner: map<nat, NodeId>, x: NodeId)
    requires forall p :: p in points ==> p in owner
    ensures forall p :: p in KeptPoints(points, owner, x) <==> p in points && owner[p] != x
  {
    if points != [] {
      KeptPointsMembers(points[..|points| - 1], owner, x);
      assert points == points[..|points| - 1] + [points[|points| - 1]];
    }
  }

  lemma {:induction false} KeptPointsAscending(points: seq<nat>, owner: map<nat, NodeId>, x: NodeId, h: nat)
    requires forall p :: p in points ==> p in owner
    requires Ascending(points, h)
    ensures Ascending(KeptPoints(points, owner, x), h)
  {
    if points != [] {
      var front, last := points[..|points| - 1], points[|points| - 1];
      KeptPointsAscending(front, owner, x, h);
      KeptPointsMembers(front, owner, x);
      forall p | p in KeptPoints(front, owner, x)
        ensures Dist(p, h) < Dist(last, h)
      {
        var i :| 0 <= i < |front| && front[i] == p;
        assert points[i] == p;
      }
    }
  }

  lemma {:induction false} KeptOwners(points: seq<nat>, owner: map<nat, NodeId>, x: NodeId)
    requires forall p :: p in points ==> p in owner
    ensures forall p :: p in KeptPoints(points, owner, x) ==> p in owner
    ensures Owners(owner, KeptPoints(points, owner, x)) == Without(Owners(owner, points), x)
  {
    if points != [] {
      var front, last := points[..|points| - 1], points[|points| - 1];
      KeptOwners(front, owner, x);
      var kept := KeptPoints(front, owner, x);
      assert Owners(owner, points)[..|points| - 1] == Owners(owner, front);
      if owner[last] != x {
        assert Owners(owner, kept + [last]) == Owners(owner, kept) + [owner[last]];
      }
    }
  }

  /** The larger ring differs from the smaller one by the points of `x` only. */
  lemma SmallerRingIsKept(sc: Scheme, small: Ring, large: Ring, x: NodeId)
    requires Canonical(sc, small) && Canonical(sc, large)
    requires x !in small.nodes && large.nodes == small.nodes + {x}
    ensures forall p :: p in small.owner <==> p in large.owner && large.owner[p] != x
    ensures forall p :: p in small.owner ==> large.owner[p] == small.owner[p]
  {
    forall p
      ensures p in small.owner <==> p in large.owner && large.owner[p] != x
      ensures p in small.owner ==> large.owner[p] == small.owner[p]
    {
      if p in small.owner {
        var n := small.owner[p];
        assert HasOwner(small.owner, p, n) && HasOwner(large.owner, p, n);
      }
      if p in large.owner && large.owner[p] != x {
        var n := large.owner[p];
        assert HasOwner(large.owner, p, n) && HasOwner(small.owner, p, n);
      }
    }
  }

  lemma ClockwiseIsKept(sc: Scheme, small: Ring, large: Ring, x: NodeId, h: nat)
    requires ValidScheme(sc) && h < SPACE
    requires Canonical(sc, small) && Canonical(sc, large)
    requires x !in small.nodes && large.nodes == small.nodes + {x}
    ensures forall p :: p in Clockwise(large, h) ==> p in large.owner
    ensures KeptPoints(Clockwise(large, h), large.owner, x) == Clockwise(small, h)
  {
    SmallerRingIsKept(sc, small, large, x);
    PointsBounded(sc, small);
    PointsBounded(sc, large);
    ClockwiseMembers(small, h);
    ClockwiseMembers(large, h);
    ClockwiseAscending(small, h);
    ClockwiseAscending(large, h);
    var c, c' := Clockwise(small, h), Clockwise(large, h);
    KeptPointsMembers(c', large.owner, x);
    KeptPointsAscending(c', large.owner, x, h);
    var kept := KeptPoints(c', large.owner, x);
    forall p
      ensures p in Elems(kept) <==> p in Elems(c)
    {
      assert p in Elems(small.points) <==> p in small.owner.Keys;
      assert p in Elems(large.points) <==> p in large.owner.Keys;
    }
    AscendingUnique(kept, c, h);
  }

  /** Adding a node inserts it into every key's clockwise owner order and leaves
      the rest in order; read backwards, removal just deletes it. */
  lemma OwnerOrderStable(sc: Scheme, small: Ring, large: Ring, x: NodeId, h: nat)
    requires ValidScheme(sc) && h < SPACE
    requires Canonical(sc, small) && Canonical(sc, large)
    requires x !in small.nodes && large.nodes == small.nodes + {x}
    ensures Without(OwnerOrder(large, h), x) == OwnerOrder(small, h)
  {
    ClockwiseIsKept(sc, small, large, x, h);
    ClockwiseMembers(small, h);
    SmallerRingIsKept(sc, small, large, x);
    var c, c' := Clockwise(small, h), Clockwise(large, h);
    KeptOwners(c', large.owner, x);
    OwnersAgree(large.owner, small.owner, c);
    DedupWithout(Owners(large.owner, c'), x);
  }

  lemma OwnersAgree(a: map<nat, NodeId>, b: map<nat, NodeId>, points: seq<nat>)
    requires forall p :: p in points ==> p in a && p in b && a[p] == b[p]
    ensures Owners(a, points) == Owners(b, points)
  {}

  // ----- what the walk returns

  lemma OwnerIsNode(sc: Scheme, r: Ring, h: nat, i: nat)
    requires Canonical(sc, r) && i < |Clockwise(r, h)|
    ensures Clockwise(r, h)[i] in r.owner && r.owner[Clockwise(r, h)[i]] in r.nodes
  {
    ClockwiseMembers(r, h);
    var p := Clockwise(r, h)[i];
    assert p in Clockwise(r, h) && p in Elems(r.points);
    assert HasOwner(r.owner, p, r.owner[p]);
  }

  lemma NodeIsOwner(sc: Scheme, r: Ring, h: nat, n: NodeId) returns (i: nat)
    requires Canonical(sc, r) && sc.virtualNodes >= 1 && n in r.nodes
    ensures i < |Clockwise(r, h)| && HasOwner(r.owner, Clockwise(r, h)[i], n)
  {
    ClockwiseMembers(r, h);
    var p := Point(sc, n, 0);
    assert OwnsPoint(sc, n, 0, sc.virtualNodes, p) && HasOwner(r.owner, p, n);
    assert p in Elems(r.points);
    i :| 0 <= i < |Clockwise(r, h)| && Clockwise(r, h)[i] == p;
  }

  lemma OwnersAreNodes(sc: Scheme, r: Ring, h: nat)
    requires Canonical(sc, r) && sc.virtualNodes >= 1
    ensures forall p :: p in Clockwise(r, h) ==> p in r.owner
    ensures Elems(Owners(r.owner, Clockwise(r, h))) == r.nodes
  {
    var c := Clockwise(r, h);
    forall i: nat | i < |c|
      ensures c[i] in r.owner && r.owner[c[i]] in r.nodes
    {
      OwnerIsNode(sc, r, h, i);
    }
    var all := Owners(r.owner, c);
    forall n | n in r.nodes
      ensures n in all
    {
      var i := NodeIsOwner(sc, r, h, n);
      assert all[i] == n;
    }
  }

  lemma OwnerOrderComplete(sc: Scheme, r: Ring, h: nat)
    requires Canonical(sc, r) && sc.virtualNodes >= 1
    ensures Distinct(OwnerOrder(r, h))
    ensures Elems(OwnerOrder(r, h)) == r.nodes
    ensures |OwnerOrder(r, h)| == |r.nodes|
  {
    OwnersAreNodes(sc, r, h);
    DedupProperties(Owners(r.owner, Clockwise(r, h)));
    DistinctSize(OwnerOrder(r, h));
  }

  /** For n >= 1 the walk returns min(n, node count) distinct members, headed by
      the owner `get_node` finds, and the longer list extends the shorter one. */
  lemma PreferenceListShape(sc: Scheme, r: Ring, h: nat, n: nat)
    requires ValidScheme(sc) && Canonical(sc, r) && sc.virtualNodes >= 1 && h < SPACE
    requires n >= 1 && r.nodes != {}
    ensures var prefs := PreferenceList(r, h, n);
            && |prefs| == Min(n, |r.nodes|)
            && Distinct(prefs)
            && (forall x :: x in prefs ==> x in r.nodes)
            && prefs[..1] == OwnerOrder(r, h)[..1]
            && prefs <= PreferenceList(r, h, n + 1)
  {
    OwnerOrderComplete(sc, r, h);
    var order := OwnerOrder(r, h);
    assert |r.nodes| >= 1;
    var prefs := PreferenceList(r, h, n);
    assert prefs == order[..Min(n, |r.nodes|)];
    forall x | x in prefs
      ensures x in r.nodes
    {
      assert x in Elems(order);
    }
  }

  /** The first candidate that is not a replica: `put`'s choice of hint holder. */
  function HintHolder(candidates: seq<NodeId>, prefs: seq<NodeId>): Option<NodeId> {
    if candidates == [] then None
    else if candidates[0] !in prefs then Some(candidates[0])
    else HintHolder(candidates[1..], prefs)
  }

  lemma {:induction false} HintHolderSkips(candidates: seq<NodeId>, prefs: seq<NodeId>, k: nat)
    requires k <= |candidates| && forall i :: 0 <= i < k ==> candidates[i] in prefs
    ensures HintHolder(candidates, prefs) == HintHolder(candidates[k..], prefs)
  {
    if k > 0 {
      HintHolderSkips(candidates[1..], prefs, k - 1);
      assert candidates[1..][k - 1..] == candidates[k..];
    } else {
      assert candidates[0..] == candidates;
    }
  }

  /** The hint holder is the next owner after the replica list, and exists exactly
      when the cluster has a node to spare. */
  lemma HintHolderIsNextOwner(sc: Scheme, r: Ring, h: nat, n: nat)
    requires ValidScheme(sc) && Canonical(sc, r) && sc.virtualNodes >= 1 && h < SPACE
    requires n >= 1 && r.nodes != {}
    ensures |r.nodes| > n ==> n < |OwnerOrder(r, h)| && OwnerOrder(r, h)[n] !in PreferenceList(r, h, n)
    ensures var prefs := PreferenceList(r, h, n);
            HintHolder(PreferenceList(r, h, |prefs| + 1), prefs)
              == if |r.nodes| > n then Some(OwnerOrder(r, h)[n]) else None
  {
    PreferenceListShape(sc, r, h, n);
    OwnerOrderComplete(sc, r, h);
    var order := OwnerOrder(r, h);
    var prefs := PreferenceList(r, h, n);
    var k := |prefs|;
    var candidates := PreferenceList(r, h, k + 1);
    assert prefs == order[..k];
    forall i | 0 <= i < k
      ensures i < |candidates| && candidates[i] in prefs
    {
      assert candidates[i] == prefs[i];
    }
    HintHolderSkips(candidates, prefs, k);
    if |r.nodes| > n {
      assert candidates == order[..n + 1];
      assert candidates[k..] == [order[n]];
      assert order[n] !in prefs;
    } else {
      assert candidates[k..] == [];
    }
  }

  function Head(s: seq<NodeId>): Option<NodeId> {
    if s == [] then None else Some(s[0])
  }

  /** After adding `x`, the new replica list without `x` is a prefix of the old one
      and at most one replica is displaced. Removal is the same relation reversed. */
  lemma PreferenceListStable(sc: Scheme, small: Ring, large: Ring, x: NodeId, h: nat, n: nat)
    requires ValidScheme(sc) && sc.virtualNodes >= 1 && h < SPACE && n >= 1
    requires Canonical(sc, small) && Canonical(sc, large)
    requires small.nodes != {} && x !in small.nodes && large.nodes == small.nodes + {x}
    ensures Without(PreferenceList(large, h, n), x) <= PreferenceList(small, h, n)
    ensures |PreferenceList(small, h, n)| - 1 <= |Without(PreferenceList(large, h, n), x)|
    ensures x !in PreferenceList(large, h, n) ==> PreferenceList(large, h, n) == PreferenceList(small, h, n)
  {
    OwnerOrderStable(sc, small, large, x, h);
    OwnerOrderComplete(sc, small, h);
    OwnerOrderComplete(sc, large, h);
    assert |large.nodes| == |small.nodes| + 1 && |small.nodes| >= 1;
    TakeStable(OwnerOrder(small, h), OwnerOrder(large, h), x, n);
  }

  lemma TakeStable(old': seq<NodeId>, new': seq<NodeId>, x: NodeId, n: nat)
    requires Distinct(new') && x in new' && Without(new', x) == old'
    ensures |new'| == |old'| + 1
    ensures Without(new'[..Min(n, |new'|)], x) <= old'[..Min(n, |old'|)]
    ensures Min(n, |old'|) - 1 <= |Without(new'[..Min(n, |new'|)], x)|
    ensures x !in new'[..Min(n, |new'|)] ==> new'[..Min(n, |new'|)] == old'[..Min(n, |old'|)]
  {
    var taken := new'[..Min(n, |new'|)];
    WithoutLength(new', x);
    WithoutPrefix(new', x, Min(n, |new'|));
    WithoutLength(taken, x);
    WithoutMembers(taken, x);
    if n >= |new'| {
      assert taken == new';
    }
  }

  /** A key changes owner only to the added node, or away from the removed one. */
  lemma OwnerChangesOnlyToNewNode(sc: Scheme, small: Ring, large: Ring, x: NodeId, h: nat)
    requires ValidScheme(sc) && h < SPACE
    requires Canonical(sc, small) && Canonical(sc, large)
    requires x !in small.nodes && large.nodes == small.nodes + {x}
    ensures Head(OwnerOrder(large, h)) != Head(OwnerOrder(small, h)) ==> Head(OwnerOrder(large, h)) == Some(x)
  {
    OwnerOrderStable(sc, small, large, x, h);
    var order := OwnerOrder(large, h);
    if order != [] && order[0] != x {
      FirstUnlessDropped(order, x);
    }
  }

  lemma FirstUnlessDropped(s: seq<NodeId>, x: NodeId)
    requires s != [] && s[0] != x
    ensures Without(s, x) != [] && Without(s, x)[0] == s[0]
  {
    if |s| > 1 {
      FirstUnlessDropped(s[..|s| - 1], x);
    }
  }

  /** Adding a new node and removing it again leaves no trace in list, map or node set. */
  method AddThenRemove(ring: HashRing, x: NodeId)
    requires ring.Valid() && x !in ring.nodes && NoCollisions(ring.scheme, ring.nodes + {x})
    modifies ring
    ensures ring.Valid() && ring.State() == old(ring.State())
  {
    ghost var before := ring.State();
    ring.AddNode(x);
    var ok := ring.RemoveNode(x);
    assert before.nodes + {x} - {x} == before.nodes;
    CanonicalUnique(ring.scheme, ring.State(), before);
  }
}
