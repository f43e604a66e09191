/** The consistent-hash ring: a strictly sorted list of virtual points and a map
    from point to owner, kept in step by in-place insertion and removal. */
module HashRings {
  import opened Basics
  import opened VectorClocks

  /** Hashes are 8-byte digests read as unsigned numbers. */
  const SPACE: nat := 0x1_0000_0000_0000_0000

  datatype Scheme = Scheme(hash: string -> nat, virtualNodes: nat)

  datatype Ring = Ring(owner: map<nat, NodeId>, points: seq<nat>, nodes: set<NodeId>)

  ghost predicate ValidScheme(sc: Scheme) {
    forall s: string :: sc.hash(s) < SPACE
  }

  function Decimal(i: nat): string {
    if i < 10 then ["0123456789"[i]] else Decimal(i / 10) + ["0123456789"[i % 10]]
  }

  function VirtualName(node: NodeId, i: nat): string {
    node + "#" + Decimal(i)
  }

  function Point(sc: Scheme, node: NodeId, i: nat): nat {
    sc.hash(VirtualName(node, i))
  }

  /** No two virtual points of the given nodes coincide. */
  ghost predicate NoCollisions(sc: Scheme, nodes: set<NodeId>) {
    forall n, i, m, j {:trigger Point(sc, n, i), Point(sc, m, j)} ::
      && n in nodes && 0 <= i < sc.virtualNodes
      && m in nodes && 0 <= j < sc.virtualNodes
      && Point(sc, n, i) == Point(sc, m, j)
      ==> n == m && i == j
  }

  // ----- what the names are, digit by digit

  function DigitOf(d: char): nat {
    if '0' <= d <= '9' then (d - '0') as nat else 0
  }

  /** The number a string of decimal digits denotes. */
  function NumberOf(digits: string): nat {
    if digits == [] then 0 else 10 * NumberOf(digits[..|digits| - 1]) + DigitOf(digits[|digits| - 1])
  }

  /** A decimal numeral without leading zeros. */
  ghost predicate Numeral(digits: string) {
    && |digits| >= 1 && (forall d :: d in digits ==> '0' <= d <= '9')
    && (|digits| > 1 ==> digits[0] != '0')
  }

  lemma {:induction false} DecimalIsNumeral(i: nat)
    ensures Numeral(Decimal(i)) && NumberOf(Decimal(i)) == i
    ensures i > 0 ==> Decimal(i)[0] != '0'
  {
    if i >= 10 {
      DecimalIsNumeral(i / 10);
      var front, last := Decimal(i / 10), "0123456789"[i % 10];
      assert Decimal(i) == front + [last] && Decimal(i)[..|front|] == front;
    } else {
      var d := ["0123456789"[i]];
      assert d[..0] == [] && NumberOf(d) == i;
    }
  }

  lemma {:induction false} NumeralIsDecimal(digits: string)
    requires Numeral(digits)
    ensures Decimal(NumberOf(digits)) == digits
    ensures digits[0] != '0' ==> NumberOf(digits) > 0
  {
    var front, last := digits[..|digits| - 1], digits[|digits| - 1];
    assert last in digits && digits == front + [last];
    assert "0123456789"[DigitOf(last)] == last;
    if front == [] {
      assert NumberOf(front) == 0;
    } else {
      assert forall d :: d in front ==> d in digits;
      assert front[0] == digits[0];
      NumeralIsDecimal(front);
      assert NumberOf(digits) / 10 == NumberOf(front) && NumberOf(digits) % 10 == DigitOf(last);
    }
  }

  /** The name of virtual node `i` is the node's name, the separator and the decimal
      numeral of `i`. */
  lemma VirtualNameReads(node: NodeId, i: nat)
    ensures var name := VirtualName(node, i);
            && |name| > |node| + 1 && name[..|node|] == node && name[|node|] == '#'
            && Numeral(name[|node| + 1..]) && NumberOf(name[|node| + 1..]) == i
  {
    DecimalIsNumeral(i);
    assert VirtualName(node, i)[|node| + 1..] == Decimal(i);
  }

  /** So the point of virtual node `i` is the hash of that name. */
  lemma PointIsNamed(sc: Scheme, node: NodeId, digits: string)
    requires Numeral(digits)
    ensures Point(sc, node, NumberOf(digits)) == sc.hash(node + "#" + digits)
  {
    NumeralIsDecimal(digits);
  }

  // ----- so they never coincide, only their hashes can

  lemma SeparatorInSuffix(n: string, a: string, m: string, b: string)
    requires n + "#" + a == m + "#" + b && |m| < |n|
    ensures '#' in b
  {
    assert (m + "#" + b)[|n|] == b[|n| - |m| - 1];
  }

  /** Node names may contain the separator themselves; the suffix still decides. */
  lemma VirtualNameInjective(n: NodeId, i: nat, m: NodeId, j: nat)
    requires VirtualName(n, i) == VirtualName(m, j)
    ensures n == m && i == j
  {
    var s, a, b := VirtualName(n, i), Decimal(i), Decimal(j);
    DecimalIsNumeral(i);
    DecimalIsNumeral(j);
    if |m| < |n| {
      SeparatorInSuffix(n, a, m, b);
    } else if |n| < |m| {
      SeparatorInSuffix(m, b, n, a);
    }
    assert n == s[..|n|] && m == s[..|m|];
    assert a == s[|n| + 1..] && b == s[|m| + 1..];
  }

  lemma InjectiveHashHasNoCollisions(sc: Scheme, nodes: set<NodeId>)
    requires forall n, i, m, j {:trigger VirtualName(n, i), VirtualName(m, j)} ::
               && n in nodes && 0 <= i < sc.virtualNodes
               && m in nodes && 0 <= j < sc.virtualNodes
               && sc.hash(VirtualName(n, i)) == sc.hash(VirtualName(m, j))
               ==> VirtualName(n, i) == VirtualName(m, j)
    ensures NoCollisions(sc, nodes)
  {
    forall n, i, m, j | n in nodes && m in nodes && 0 <= i < sc.virtualNodes
      && 0 <= j < sc.virtualNodes && Point(sc, n, i) == Point(sc, m, j)
      ensures n == m && i == j
    {
      VirtualNameInjective(n, i, m, j);
    }
  }

  // ----- the circle

  /** The digest has eight bytes, the most significant first. */
  function FromBytes(bytes: seq<nat>): nat {
    if bytes == [] then 0 else 256 * FromBytes(bytes[..|bytes| - 1]) + bytes[|bytes| - 1]
  }

  function ToBytes(n: nat, length: nat): seq<nat> {
    if length == 0 then [] else ToBytes(n / 256, length - 1) + [n % 256]
  }

  function PowerOf256(length: nat): nat {
    if length == 0 then 1 else 256 * PowerOf256(length - 1)
  }

  lemma {:induction false} BytesAreBounded(bytes: seq<nat>)
    requires forall b :: b in bytes ==> b < 256
    ensures FromBytes(bytes) < PowerOf256(|bytes|)
  {
    if bytes != [] {
      var front := bytes[..|bytes| - 1];
      assert bytes[|bytes| - 1] in bytes;
      assert forall b :: b in front ==> b in bytes;
      BytesAreBounded(front);
    }
  }

  lemma {:induction false} BytesReadBack(n: nat, length: nat)
    requires n < PowerOf256(length)
    ensures |ToBytes(n, length)| == length && (forall b :: b in ToBytes(n, length) ==> b < 256)
    ensures FromBytes(ToBytes(n, length)) == n
  {
    if length > 0 {
      BytesReadBack(n / 256, length - 1);
      var front := ToBytes(n / 256, length - 1);
      assert (front + [n % 256])[..|front|] == front;
    }
  }

  /** Digests of eight bytes are exactly the numbers below `SPACE`. */
  lemma DigestsFillSpace(n: nat)
    ensures n < SPACE <==>
            exists bytes: seq<nat> ::
              |bytes| == 8 && (forall b :: b in bytes ==> b < 256) && FromBytes(bytes) == n
  {
    assert PowerOf256(1) == 256 && PowerOf256(2) == 0x1_0000 && PowerOf256(4) == 0x1_0000_0000;
    assert PowerOf256(6) == 0x1_0000_0000_0000 && PowerOf256(8) == SPACE;
    if n < SPACE {
      BytesReadBack(n, 8);
    }
    if bytes: seq<nat> :| |bytes| == 8 && (forall b :: b in bytes ==> b < 256) && FromBytes(bytes) == n {
      BytesAreBounded(bytes);
    }
  }

  /** Clockwise distance from hash `h` to point `p`. */
  function Dist(p: nat, h: nat): int {
    if p >= h then p - h else p - h + SPACE
  }

  /** Strictly increasing in clockwise distance from `h`; from 0 this is plain order. */
  ghost predicate Ascending(s: seq<nat>, h: nat) {
    forall i, j :: 0 <= i < j < |s| ==> Dist(s[i], h) < Dist(s[j], h)
  }

  lemma {:induction false} AscendingUnique(s: seq<nat>, t: seq<nat>, h: nat)
    requires Ascending(s, h) && Ascending(t, h) && Elems(s) == Elems(t)
    ensures s == t
    decreases |s|
  {
    assert t != [] ==> t[0] in Elems(t);
    if s != [] {
      assert s[0] in Elems(s) && t != [];
      var i :| 0 <= i < |t| && t[i] == s[0];
      var j :| 0 <= j < |s| && s[j] == t[0];
      assert s[0] == t[0];
      forall p
        ensures p in Elems(s[1..]) <==> p in Elems(t[1..])
      {
        assert p in Elems(s[1..]) ==> p in Elems(s) && p != s[0];
        assert p in Elems(t[1..]) ==> p in Elems(t) && p != t[0];
      }
      AscendingUnique(s[1..], t[1..], h);
    }
  }

  /** Non-decreasing; a point occurs twice only after a hash collision. */
  ghost predicate Sorted(s: seq<nat>) {
    forall i, j :: 0 <= i < j < |s| ==> s[i] <= s[j]
  }

  lemma AscendingIsSortedDistinct(s: seq<nat>)
    ensures Ascending(s, 0) <==> Sorted(s) && Distinct(s)
  {
    if Sorted(s) && Distinct(s) {
      forall i, j | 0 <= i < j < |s|
        ensures Dist(s[i], 0) < Dist(s[j], 0)
      {
        assert s[i] <= s[j] && s[i] != s[j];
      }
    }
    if Ascending(s, 0) {
      forall i, j | 0 <= i < j < |s|
        ensures s[i] < s[j]
      {
        assert Dist(s[i], 0) < Dist(s[j], 0);
      }
    }
  }

  lemma MemberCounted(s: seq<nat>, x: nat)
    ensures x in s <==> multiset(s)[x] >= 1
  {
    assert x in s <==> x in multiset(s);
  }

  lemma {:induction false} DistinctCountsOnce(s: seq<nat>, x: nat)
    requires Distinct(s)
    ensures multiset(s)[x] <= 1
  {
    if s != [] {
      var front, last := s[..|s| - 1], s[|s| - 1];
      DistinctCountsOnce(front, x);
      MemberCounted(front, x);
      assert s == front + [last];
      assert last !in front;
    }
  }

  lemma RepeatedCountsTwice(s: seq<nat>, i: nat, j: nat)
    requires i < j < |s| && s[i] == s[j]
    ensures multiset(s)[s[i]] >= 2
  {
    var x, low, high := s[i], s[..j], s[j..];
    assert s == low + high;
    assert low[i] == x && high[0] == x;
    MemberCounted(low, x);
    MemberCounted(high, x);
    assert multiset(s)[x] == multiset(low)[x] + multiset(high)[x];
  }

  ghost predicate SplitsAt(s: seq<nat>, x: nat, k: nat) {
    && k <= |s|
    && (forall i :: 0 <= i < k ==> s[i] < x)
    && (forall i :: k <= i < |s| ==> x <= s[i])
  }

  /** Where `bisect_left` inserts. */
  function LowerBound(s: seq<nat>, x: nat): (k: nat)
    ensures k <= |s|
  {
    if s == [] || x <= s[0] then 0 else 1 + LowerBound(s[1..], x)
  }

  lemma {:induction false} LowerBoundSplits(s: seq<nat>, x: nat)
    requires Sorted(s)
    ensures SplitsAt(s, x, LowerBound(s, x))
  {
    if s != [] && s[0] < x {
      LowerBoundSplits(s[1..], x);
      var k := LowerBound(s[1..], x);
      forall i | 0 <= i < 1 + k
        ensures s[i] < x
      {
        assert i == 0 || s[i] == s[1..][i - 1];
      }
      forall i | 1 + k <= i < |s|
        ensures x <= s[i]
      {
        assert s[i] == s[1..][i - 1];
      }
    }
  }

  /** Binary search of the standard library, as the ring uses it. */
  method BisectLeft(s: seq<nat>, x: nat) returns (k: nat)
    requires Sorted(s)
    ensures SplitsAt(s, x, k) && k == LowerBound(s, x)
  {
    var lo, hi := 0, |s|;
    while lo < hi
      invariant 0 <= lo <= hi <= |s|
      invariant forall i :: 0 <= i < lo ==> s[i] < x
      invariant forall i :: hi <= i < |s| ==> x <= s[i]
    {
      var mid := (lo + hi) / 2;
      assert forall i :: 0 <= i < mid ==> s[i] <= s[mid];
      assert forall i :: mid < i < |s| ==> s[mid] <= s[i];
      if s[mid] < x {
        lo := mid + 1;
      } else {
        hi := mid;
      }
    }
    k := lo;
    LowerBoundSplits(s, x);
    SplitUnique(s, x, k, LowerBound(s, x));
  }

  lemma SplitUnique(s: seq<nat>, x: nat, a: nat, b: nat)
    requires SplitsAt(s, x, a) && SplitsAt(s, x, b)
    ensures a == b
  {
    assert a < |s| ==> x <= s[a];
    assert b < |s| ==> x <= s[b];
  }

  /** `insort`. It inserts after equal points; among equal numbers that is the same list. */
  method Insort(s: seq<nat>, x: nat) returns (r: seq<nat>)
    requires Sorted(s)
    ensures Sorted(r) && multiset(r) == multiset(s) + multiset{x}
  {
    var k := BisectLeft(s, x);
    r := s[..k] + [x] + s[k..];
    forall i, j | 0 <= i < j < |r|
      ensures r[i] <= r[j]
    {
      var i' := if i < k then i else i - 1;
      var j' := if j < k then j else j - 1;
      assert i != k ==> r[i] == s[i'];
      assert j != k ==> r[j] == s[j'];
    }
    assert s == s[..k] + s[k..];
  }

  // ----- the ring as a value

  predicate OwnsPoint(sc: Scheme, node: NodeId, lo: nat, hi: nat, p: nat) {
    exists i :: lo <= i < hi && Point(sc, node, i) == p
  }

  predicate HasOwner(owner: map<nat, NodeId>, p: nat, node: NodeId) {
    p in owner && owner[p] == node
  }

  /** Sorted list and owner map agree on the points; after collisions too. */
  ghost predicate Consistent(r: Ring) {
    Sorted(r.points) && Elems(r.points) == r.owner.Keys && forall p :: p in r.points ==> p < SPACE
  }

  /** The sorted list and the owner map hold exactly the virtual points of the node set. */
  ghost predicate Canonical(sc: Scheme, r: Ring) {
    && Ascending(r.points, 0)
    && Elems(r.points) == r.owner.Keys
    && (forall p, n {:trigger HasOwner(r.owner, p, n)} :: HasOwner(r.owner, p, n) <==>
          n in r.nodes && OwnsPoint(sc, n, 0, sc.virtualNodes, p))
  }

  /** The ring depends on its node set only, whatever sequence of additions and
      removals produced it. */
  lemma CanonicalUnique(sc: Scheme, r1: Ring, r2: Ring)
    requires Canonical(sc, r1) && Canonical(sc, r2) && r1.nodes == r2.nodes
    ensures r1 == r2
  {
    forall p
      ensures p in r1.owner <==> p in r2.owner
      ensures p in r1.owner && p in r2.owner ==> r1.owner[p] == r2.owner[p]
    {
      if p in r1.owner {
        var n := r1.owner[p];
        assert HasOwner(r1.owner, p, n) && HasOwner(r2.owner, p, n);
      }
      if p in r2.owner {
        var n := r2.owner[p];
        assert HasOwner(r2.owner, p, n) && HasOwner(r1.owner, p, n);
      }
    }
    assert r1.owner == r2.owner;
    AscendingUnique(r1.points, r2.points, 0);
  }

  // ----- adding a node, with or without collisions

  /** The first `k` points of a node, in the order they are added. */
  function FirstOf(sc: Scheme, node: NodeId, k: nat): (list: seq<nat>)
    ensures |list| == k
  {
    seq(k, i requires 0 <= i < k => Point(sc, node, i))
  }

  lemma FirstOneMore(sc: Scheme, node: NodeId, k: nat)
    ensures FirstOf(sc, node, k + 1) == FirstOf(sc, node, k) + [Point(sc, node, k)]
    ensures multiset(FirstOf(sc, node, k + 1)) == multiset(FirstOf(sc, node, k)) + multiset{Point(sc, node, k)}
  {
    assert FirstOf(sc, node, k + 1) == FirstOf(sc, node, k) + [Point(sc, node, k)];
  }

  /** The owner map after those points were assigned to the node, whoever had them. */
  function Claimed(sc: Scheme, owner: map<nat, NodeId>, node: NodeId, k: nat): map<nat, NodeId> {
    if k == 0 then owner else Claimed(sc, owner, node, k - 1)[Point(sc, node, k - 1) := node]
  }

  lemma FirstOfMembers(sc: Scheme, node: NodeId, k: nat, p: nat)
    ensures p in FirstOf(sc, node, k) <==> OwnsPoint(sc, node, 0, k, p)
  {
    if OwnsPoint(sc, node, 0, k, p) {
      var i :| 0 <= i < k && Point(sc, node, i) == p;
      assert FirstOf(sc, node, k)[i] == p;
    }
  }

  /** The last writer of a point owns it. */
  lemma {:induction false} ClaimedOwners(sc: Scheme, owner: map<nat, NodeId>, node: NodeId, k: nat, p: nat, n: NodeId)
    ensures HasOwner(Claimed(sc, owner, node, k), p, n) <==>
            if OwnsPoint(sc, node, 0, k, p) then n == node else HasOwner(owner, p, n)
  {
    if k > 0 {
      ClaimedOwners(sc, owner, node, k - 1, p, n);
      assert OwnsPoint(sc, node, 0, k, p) <==> OwnsPoint(sc, node, 0, k - 1, p) || p == Point(sc, node, k - 1);
    }
  }

  lemma ClaimedKeys(sc: Scheme, owner: map<nat, NodeId>, node: NodeId, k: nat, p: nat)
    ensures p in Claimed(sc, owner, node, k) <==> p in owner || OwnsPoint(sc, node, 0, k, p)
  {
    var after := Claimed(sc, owner, node, k);
    ClaimedOwners(sc, owner, node, k, p, node);
    if p in after {
      ClaimedOwners(sc, owner, node, k, p, after[p]);
    }
    if p in owner {
      ClaimedOwners(sc, owner, node, k, p, owner[p]);
    }
  }

  /** The ring `r` between `before` and the addition of `x`: the first `k` points of `x`
      are inserted once more into the sorted list and taken over in the map. */
  ghost predicate Adding(sc: Scheme, before: Ring, r: Ring, x: NodeId, k: nat) {
    && r.nodes == before.nodes + {x}
    && r.owner == Claimed(sc, before.owner, x, k)
    && Sorted(r.points)
    && multiset(r.points) == multiset(before.points) + multiset(FirstOf(sc, x, k))
  }

  /** What adding `x` to a ring makes of it. */
  ghost predicate Added(sc: Scheme, before: Ring, after: Ring, x: NodeId) {
    Adding(sc, before, after, x, sc.virtualNodes)
  }

  lemma AddingStep(sc: Scheme, before: Ring, r: Ring, x: NodeId, k: nat, points: seq<nat>)
    requires Adding(sc, before, r, x, k)
    requires Sorted(points) && multiset(points) == multiset(r.points) + multiset{Point(sc, x, k)}
    ensures Adding(sc, before, Ring(r.owner[Point(sc, x, k) := x], points, r.nodes), x, k + 1)
  {
    FirstOneMore(sc, x, k);
  }

  /** The nodes of the list added one after the other to an empty ring. */
  ghost predicate Built(sc: Scheme, initial: seq<NodeId>, r: Ring) {
    if initial == [] then r == Ring(map[], [], {})
    else
      var front, last := initial[..|initial| - 1], initial[|initial| - 1];
      exists prev :: Built(sc, front, prev) && if last in prev.nodes then r == prev else Added(sc, prev, r, last)
  }

  lemma BuiltOneMore(sc: Scheme, initial: seq<NodeId>, i: nat, prev: Ring, r: Ring)
    requires i < |initial| && Built(sc, initial[..i], prev) && prev.nodes == Elems(initial[..i])
    requires if initial[i] in prev.nodes then r == prev else Added(sc, prev, r, initial[i])
    ensures Built(sc, initial[..i + 1], r) && r.nodes == Elems(initial[..i + 1])
    ensures NoCollisions(sc, Elems(initial)) ==> NoCollisions(sc, prev.nodes + {initial[i]})
  {
    var upTo := initial[..i + 1];
    assert upTo[..i] == initial[..i] && upTo == initial[..i] + [initial[i]];
    ElemsAppend(initial[..i], initial[i]);
    assert prev.nodes + {initial[i]} <= Elems(initial);
  }

  lemma AddedConsistent(sc: Scheme, before: Ring, after: Ring, x: NodeId)
    requires ValidScheme(sc) && Consistent(before) && Added(sc, before, after, x)
    ensures Consistent(after)
  {
    forall p: nat
      ensures p in Elems(after.points) <==> p in after.owner
      ensures p in after.points ==> p < SPACE
    {
      MemberCounted(after.points, p);
      MemberCounted(before.points, p);
      MemberCounted(FirstOf(sc, x, sc.virtualNodes), p);
      FirstOfMembers(sc, x, sc.virtualNodes, p);
      ClaimedKeys(sc, before.owner, x, sc.virtualNodes, p);
      assert p in Elems(before.points) <==> p in before.owner;
      if OwnsPoint(sc, x, 0, sc.virtualNodes, p) {
        var i :| 0 <= i < sc.virtualNodes && Point(sc, x, i) == p;
        assert sc.hash(VirtualName(x, i)) < SPACE;
      }
    }
  }

  /** The node owns the hash of each of its names. */
  ghost predicate OwnsNames(sc: Scheme, r: Ring, node: NodeId) {
    forall digits {:trigger NumberOf(digits)} ::
      Numeral(digits) && NumberOf(digits) < sc.virtualNodes ==> HasOwner(r.owner, sc.hash(node + "#" + digits), node)
  }

  lemma AddedOwnsNames(sc: Scheme, before: Ring, after: Ring, x: NodeId)
    requires Added(sc, before, after, x)
    ensures OwnsNames(sc, after, x)
  {
    forall digits | Numeral(digits) && NumberOf(digits) < sc.virtualNodes
      ensures HasOwner(after.owner, sc.hash(x + "#" + digits), x)
    {
      PointIsNamed(sc, x, digits);
      var p := Point(sc, x, NumberOf(digits));
      assert OwnsPoint(sc, x, 0, sc.virtualNodes, p);
      ClaimedOwners(sc, before.owner, x, sc.virtualNodes, p, x);
    }
  }

  /** On a canonical ring a node owns exactly the hashes of its names. */
  lemma OwnedPointsAreNamed(sc: Scheme, r: Ring, p: nat, n: NodeId)
    requires Canonical(sc, r)
    ensures HasOwner(r.owner, p, n) <==>
            n in r.nodes && exists digits :: Numeral(digits) && NumberOf(digits) < sc.virtualNodes
                              && sc.hash(n + "#" + digits) == p
  {
    if HasOwner(r.owner, p, n) {
      var i :| 0 <= i < sc.virtualNodes && Point(sc, n, i) == p;
      DecimalIsNumeral(i);
      PointIsNamed(sc, n, Decimal(i));
    }
    if digits :| Numeral(digits) && NumberOf(digits) < sc.virtualNodes && sc.hash(n + "#" + digits) == p {
      PointIsNamed(sc, n, digits);
      assert OwnsPoint(sc, n, 0, sc.virtualNodes, p);
    }
  }

  /** A new node's point that some other node already has. */
  lemma TakenPoint(sc: Scheme, before: Ring, x: NodeId, p: nat)
    requires Canonical(sc, before) && x !in before.nodes && NoCollisions(sc, before.nodes + {x})
    requires p in before.points
    ensures !OwnsPoint(sc, x, 0, sc.virtualNodes, p)
  {
    assert p in Elems(before.points);
    var n := before.owner[p];
    assert HasOwner(before.owner, p, n);
    var i :| 0 <= i < sc.virtualNodes && Point(sc, n, i) == p;
    assert n in before.nodes + {x};
  }

  lemma AddedWithoutCollision(sc: Scheme, before: Ring, after: Ring, x: NodeId)
    requires Canonical(sc, before) && x !in before.nodes && Added(sc, before, after, x)
    requires NoCollisions(sc, after.nodes) && Elems(after.points) == after.owner.Keys
    ensures Canonical(sc, after)
  {
    var list := FirstOf(sc, x, sc.virtualNodes);
    AscendingIsSortedDistinct(before.points);
    assert Distinct(list) by {
      forall i, j | 0 <= i < j < |list|
        ensures list[i] != list[j]
      {
        assert list[i] == Point(sc, x, i) && list[j] == Point(sc, x, j) && x in after.nodes;
      }
    }
    forall p
      ensures multiset(after.points)[p] <= 1
    {
      DistinctCountsOnce(before.points, p);
      DistinctCountsOnce(list, p);
      MemberCounted(before.points, p);
      MemberCounted(list, p);
      FirstOfMembers(sc, x, sc.virtualNodes, p);
      if p in before.points {
        TakenPoint(sc, before, x, p);
      }
    }
    forall i, j | 0 <= i < j < |after.points|
      ensures after.points[i] != after.points[j]
    {
      if after.points[i] == after.points[j] {
        RepeatedCountsTwice(after.points, i, j);
      }
    }
    AscendingIsSortedDistinct(after.points);
    AddedOwners(sc, before, after, x);
  }

  lemma AddedOwners(sc: Scheme, before: Ring, after: Ring, x: NodeId)
    requires Canonical(sc, before) && x !in before.nodes && Added(sc, before, after, x)
    requires NoCollisions(sc, after.nodes)
    ensures forall p, n {:trigger HasOwner(after.owner, p, n)} :: HasOwner(after.owner, p, n) <==>
              n in after.nodes && OwnsPoint(sc, n, 0, sc.virtualNodes, p)
  {
    forall p, n
      ensures HasOwner(after.owner, p, n) <==> n in after.nodes && OwnsPoint(sc, n, 0, sc.virtualNodes, p)
    {
      ClaimedOwners(sc, before.owner, x, sc.virtualNodes, p, n);
      assert HasOwner(before.owner, p, n) <==> n in before.nodes && OwnsPoint(sc, n, 0, sc.virtualNodes, p);
      if OwnsPoint(sc, x, 0, sc.virtualNodes, p) && n in after.nodes && OwnsPoint(sc, n, 0, sc.virtualNodes, p) {
        var i :| 0 <= i < sc.virtualNodes && Point(sc, n, i) == p;
        var j :| 0 <= j < sc.virtualNodes && Point(sc, x, j) == p;
        assert n == x;
      }
    }
  }

  lemma AddedKeepsApart(sc: Scheme, before: Ring, after: Ring, x: NodeId, n: NodeId, i: nat, m: NodeId, j: nat)
    requires Canonical(sc, before) && NoCollisions(sc, before.nodes) && x !in before.nodes
    requires Added(sc, before, after, x) && Canonical(sc, after)
    requires n in after.nodes && m in after.nodes && i < sc.virtualNodes && j < sc.virtualNodes
    requires Point(sc, n, i) == Point(sc, m, j)
    ensures n == m && i == j
  {
    var p := Point(sc, n, i);
    assert OwnsPoint(sc, n, 0, sc.virtualNodes, p) && OwnsPoint(sc, m, 0, sc.virtualNodes, p);
    assert HasOwner(after.owner, p, n) && HasOwner(after.owner, p, m);
    if n == x && i != j {
      var list := FirstOf(sc, x, sc.virtualNodes);
      RepeatedCountsTwice(list, Min(i, j), Max(i, j));
      AscendingIsSortedDistinct(after.points);
      DistinctCountsOnce(after.points, p);
    }
  }

  /** Adding a node to a canonical ring gives a canonical ring exactly when no virtual
      point of the node coincides with another one: the assumption is the weakest. */
  lemma AddedCanonicalIff(sc: Scheme, before: Ring, after: Ring, x: NodeId)
    requires ValidScheme(sc) && Canonical(sc, before) && NoCollisions(sc, before.nodes) && x !in before.nodes
    requires Added(sc, before, after, x)
    ensures Canonical(sc, after) <==> NoCollisions(sc, after.nodes)
  {
    CanonicalConsistent(sc, before);
    AddedConsistent(sc, before, after, x);
    if NoCollisions(sc, after.nodes) {
      AddedWithoutCollision(sc, before, after, x);
    }
    if Canonical(sc, after) {
      forall n, i, m, j | n in after.nodes && 0 <= i < sc.virtualNodes && m in after.nodes
        && 0 <= j < sc.virtualNodes && Point(sc, n, i) == Point(sc, m, j)
        ensures n == m && i == j
      {
        AddedKeepsApart(sc, before, after, x, n, i, m, j);
      }
    }
  }

  ghost predicate Proper(sc: Scheme, r: Ring) {
    NoCollisions(sc, r.nodes) && Canonical(sc, r)
  }

  lemma AddedValidIff(sc: Scheme, before: Ring, after: Ring, x: NodeId)
    requires ValidScheme(sc) && x !in before.nodes && Added(sc, before, after, x)
    ensures Proper(sc, before) ==> (Proper(sc, after) <==> NoCollisions(sc, before.nodes + {x}))
  {
    if Proper(sc, before) {
      AddedCanonicalIff(sc, before, after, x);
    }
  }

  // ----- removing a node, with or without collisions

  /** The ring `r` while `x` is removed from `before`: the first `k` points of `x` are
      gone from the map, and once each from the sorted list. */
  ghost predicate Removing(sc: Scheme, before: Ring, r: Ring, x: NodeId, k: nat) {
    && r.nodes == before.nodes - {x}
    && r.owner == before.owner - Elems(FirstOf(sc, x, k))
    && Sorted(r.points)
    && multiset(before.points) == multiset(r.points) + multiset(FirstOf(sc, x, k))
  }

  ghost predicate Removed(sc: Scheme, before: Ring, after: Ring, x: NodeId) {
    Removing(sc, before, after, x, sc.virtualNodes)
  }

  /** Removal stopped with an error at a point of `x` that has no owner (any more). */
  ghost predicate RemovalFailed(sc: Scheme, before: Ring, after: Ring, x: NodeId) {
    exists k :: 0 <= k < sc.virtualNodes && Removing(sc, before, after, x, k) && Point(sc, x, k) !in after.owner
  }

  function PopAt(s: seq<nat>, k: nat): seq<nat>
    requires k < |s|
  {
    s[..k] + s[k + 1..]
  }

  lemma PopAtSorted(s: seq<nat>, k: nat)
    requires Sorted(s) && k < |s|
    ensures Sorted(PopAt(s, k))
  {
    var r := PopAt(s, k);
    forall i, j | 0 <= i < j < |r|
      ensures r[i] <= r[j]
    {
      var i' := if i < k then i else i + 1;
      var j' := if j < k then j else j + 1;
      assert r[i] == s[i'] && r[j] == s[j'];
    }
  }

  lemma PopAtCounts(s: seq<nat>, k: nat)
    requires k < |s|
    ensures multiset(s) == multiset(PopAt(s, k)) + multiset{s[k]}
  {
    assert s == s[..k] + [s[k]] + s[k + 1..];
  }

  /** `pop` where `bisect_left` finds a point of the list removes one such point. */
  lemma PopAtRemoves(s: seq<nat>, k: nat, x: nat)
    requires Sorted(s) && SplitsAt(s, x, k) && x in s
    ensures k < |s| && s[k] == x
    ensures Sorted(PopAt(s, k)) && multiset(s) == multiset(PopAt(s, k)) + multiset{x}
  {
    var at :| 0 <= at < |s| && s[at] == x;
    assert k <= at;
    assert k < at ==> s[k] <= s[at];
    PopAtSorted(s, k);
    PopAtCounts(s, k);
  }

  lemma RemovingStep(sc: Scheme, before: Ring, r: Ring, x: NodeId, i: nat, k: nat)
    requires Elems(before.points) == before.owner.Keys && Removing(sc, before, r, x, i)
    requires Point(sc, x, i) in r.owner && SplitsAt(r.points, Point(sc, x, i), k)
    ensures k < |r.points|
    ensures Removing(sc, before, Ring(r.owner - {Point(sc, x, i)}, PopAt(r.points, k), r.nodes), x, i + 1)
  {
    var h := Point(sc, x, i);
    assert h in Elems(before.points);
    MemberCounted(before.points, h);
    MemberCounted(FirstOf(sc, x, i), h);
    MemberCounted(r.points, h);
    PopAtRemoves(r.points, k, h);
    FirstOneMore(sc, x, i);
    ElemsAppend(FirstOf(sc, x, i), h);
  }

  /** Without collisions every point is still there when its turn comes. */
  lemma RemovalProceeds(sc: Scheme, before: Ring, r: Ring, x: NodeId, k: nat)
    requires Canonical(sc, before) && NoCollisions(sc, before.nodes) && x in before.nodes
    requires Removing(sc, before, r, x, k) && k < sc.virtualNodes
    ensures Point(sc, x, k) in r.owner
  {
    var h := Point(sc, x, k);
    assert OwnsPoint(sc, x, 0, sc.virtualNodes, h) && HasOwner(before.owner, h, x);
    FirstOfMembers(sc, x, k, h);
    assert !OwnsPoint(sc, x, 0, k, h);
  }

  lemma RemovedCount(sc: Scheme, before: Ring, after: Ring, x: NodeId, p: nat)
    requires Removed(sc, before, after, x)
    ensures multiset(before.points)[p] == multiset(after.points)[p] + multiset(FirstOf(sc, x, sc.virtualNodes))[p]
    ensures p in FirstOf(sc, x, sc.virtualNodes) <==> OwnsPoint(sc, x, 0, sc.virtualNodes, p)
    ensures p in before.points <==> multiset(before.points)[p] >= 1
    ensures p in after.points <==> multiset(after.points)[p] >= 1
    ensures p in FirstOf(sc, x, sc.virtualNodes) <==> multiset(FirstOf(sc, x, sc.virtualNodes))[p] >= 1
  {
    MemberCounted(before.points, p);
    MemberCounted(after.points, p);
    MemberCounted(FirstOf(sc, x, sc.virtualNodes), p);
    FirstOfMembers(sc, x, sc.virtualNodes, p);
  }

  /** Removing a node leaves points without an owner, on which lookups then fail, exactly
      when some other virtual point of the ring coincides with one of the node's. */
  lemma RemovedConsistentIff(sc: Scheme, before: Ring, after: Ring, x: NodeId)
    requires Consistent(before) && Removed(sc, before, after, x)
    ensures Consistent(after) <==>
            forall p :: p in FirstOf(sc, x, sc.virtualNodes) ==>
              multiset(before.points)[p] == multiset(FirstOf(sc, x, sc.virtualNodes))[p]
  {
    var list := FirstOf(sc, x, sc.virtualNodes);
    forall p
      ensures p in after.owner <==> p in before.points && p !in list
      ensures p in after.points ==> p in before.points
      ensures p in before.points && p !in list ==> p in after.points
      ensures p in list ==> (p in after.points <==> multiset(before.points)[p] != multiset(list)[p])
    {
      RemovedCount(sc, before, after, x, p);
      assert p in Elems(before.points) <==> p in before.owner;
    }
    if Consistent(after) {
      forall p | p in list
        ensures multiset(before.points)[p] == multiset(list)[p]
      {
        assert p in Elems(after.points) <==> p in after.owner;
      }
    }
    if forall p :: p in list ==> multiset(before.points)[p] == multiset(list)[p] {
      forall p
        ensures p in Elems(after.points) <==> p in after.owner
      {}
    }
  }

  lemma RemovedCanonical(sc: Scheme, before: Ring, after: Ring, x: NodeId)
    requires Canonical(sc, before) && NoCollisions(sc, before.nodes) && x in before.nodes
    requires Removed(sc, before, after, x)
    ensures Canonical(sc, after) && NoCollisions(sc, after.nodes)
  {
    AscendingIsSortedDistinct(before.points);
    forall p
      ensures multiset(after.points)[p] <= 1
      ensures p in after.points <==> p in before.points && !OwnsPoint(sc, x, 0, sc.virtualNodes, p)
    {
      DistinctCountsOnce(before.points, p);
      RemovedCount(sc, before, after, x, p);
    }
    forall i, j | 0 <= i < j < |after.points|
      ensures after.points[i] != after.points[j]
    {
      if after.points[i] == after.points[j] {
        RepeatedCountsTwice(after.points, i, j);
      }
    }
    AscendingIsSortedDistinct(after.points);
    RemovedOwners(sc, before, after, x);
  }

  lemma RemovedOwners(sc: Scheme, before: Ring, after: Ring, x: NodeId)
    requires Canonical(sc, before) && NoCollisions(sc, before.nodes) && x in before.nodes
    requires Removed(sc, before, after, x)
    requires forall p :: p in after.points <==> p in before.points && !OwnsPoint(sc, x, 0, sc.virtualNodes, p)
    ensures Elems(after.points) == after.owner.Keys
    ensures forall p, n {:trigger HasOwner(after.owner, p, n)} :: HasOwner(after.owner, p, n) <==>
              n in after.nodes && OwnsPoint(sc, n, 0, sc.virtualNodes, p)
  {
    forall p
      ensures p in after.owner <==> p in before.owner && !OwnsPoint(sc, x, 0, sc.virtualNodes, p)
      ensures p in Elems(after.points) <==> p in after.owner
    {
      FirstOfMembers(sc, x, sc.virtualNodes, p);
      assert p in Elems(before.points) <==> p in before.owner;
    }
    forall p, n
      ensures HasOwner(after.owner, p, n) <==> n in after.nodes && OwnsPoint(sc, n, 0, sc.virtualNodes, p)
    {
      assert HasOwner(before.owner, p, n) <==> n in before.nodes && OwnsPoint(sc, n, 0, sc.virtualNodes, p);
      assert n in after.nodes && OwnsPoint(sc, n, 0, sc.virtualNodes, p) ==> !OwnsPoint(sc, x, 0, sc.virtualNodes, p);
    }
  }

  function PointsOf(r: Ring, node: NodeId): set<nat> {
    set p | p in r.owner && r.owner[p] == node
  }

  ghost function FirstPoints(sc: Scheme, node: NodeId, k: nat): set<nat> {
    set i | 0 <= i < k :: Point(sc, node, i)
  }

  lemma {:induction false} FirstPointsSize(sc: Scheme, nodes: set<NodeId>, node: NodeId, k: nat)
    requires NoCollisions(sc, nodes) && node in nodes && k <= sc.virtualNodes
    ensures |FirstPoints(sc, node, k)| == k
  {
    if k > 0 {
      FirstPointsSize(sc, nodes, node, k - 1);
      assert FirstPoints(sc, node, k) == FirstPoints(sc, node, k - 1) + {Point(sc, node, k - 1)};
    }
  }

  /** Every node owns exactly `virtualNodes` points, and other names own none. */
  lemma OwnershipCount(sc: Scheme, r: Ring, node: NodeId)
    requires Canonical(sc, r) && NoCollisions(sc, r.nodes)
    ensures |PointsOf(r, node)| == if node in r.nodes then sc.virtualNodes else 0
  {
    if node in r.nodes {
      FirstPointsSize(sc, r.nodes, node, sc.virtualNodes);
      forall p
        ensures p in PointsOf(r, node) <==> p in FirstPoints(sc, node, sc.virtualNodes)
      {
        assert HasOwner(r.owner, p, node) <==> OwnsPoint(sc, node, 0, sc.virtualNodes, p);
      }
      assert PointsOf(r, node) == FirstPoints(sc, node, sc.virtualNodes);
    } else {
      forall p
        ensures p !in PointsOf(r, node)
      {
        assert !HasOwner(r.owner, p, node);
      }
      assert PointsOf(r, node) == {};
    }
  }

  // ----- walking the ring

  /** All points in clockwise order from hash `h`, wrapping after the last. */
  function Clockwise(r: Ring, h: nat): seq<nat> {
    var k := LowerBound(r.points, h);
    r.points[k..] + r.points[..k]
  }

  function Owners(owner: map<nat, NodeId>, points: seq<nat>): (s: seq<NodeId>)
    requires forall p :: p in points ==> p in owner
    ensures |s| == |points|
  {
    seq(|points|, i requires 0 <= i < |points| => owner[points[i]])
  }

  /** First occurrences, in order. */
  function Dedup(s: seq<NodeId>): seq<NodeId> {
    if s == [] then []
    else
      var rest := Dedup(s[..|s| - 1]);
      if s[|s| - 1] in rest then rest else rest + [s[|s| - 1]]
  }

  lemma {:induction false} DedupProperties(s: seq<NodeId>)
    ensures Elems(Dedup(s)) == Elems(s)
    ensures Distinct(Dedup(s))
    ensures s != [] ==> Dedup(s) != [] && Dedup(s)[0] == s[0]
  {
    if s != [] {
      var front := s[..|s| - 1];
      DedupProperties(front);
      assert s == front + [s[|s| - 1]];
      assert Elems(s) == Elems(front) + {s[|s| - 1]};
      assert s[|s| - 1] in Dedup(front) <==> s[|s| - 1] in Elems(Dedup(front));
    }
  }

  lemma {:induction false} DedupPrefix(s: seq<NodeId>, k: nat)
    requires k <= |s|
    ensures Dedup(s[..k]) <= Dedup(s)
    decreases |s|
  {
    if k == |s| {
      assert s[..k] == s;
    } else {
      var front := s[..|s| - 1];
      DedupPrefix(front, k);
      assert front[..k] == s[..k];
    }
  }

  lemma DedupNext(s: seq<NodeId>, i: nat)
    requires i < |s|
    ensures Dedup(s[..i + 1]) == if s[i] in Dedup(s[..i]) then Dedup(s[..i]) else Dedup(s[..i]) + [s[i]]
    ensures Dedup(s[..i + 1]) <= Dedup(s)
  {
    assert s[..i + 1][..i] == s[..i];
    DedupPrefix(s, i + 1);
  }

  /** The distinct owners met walking clockwise all the way round. */
  function OwnerOrder(r: Ring, h: nat): seq<NodeId>
    requires Elems(r.points) == r.owner.Keys
  {
    ClockwiseMembers(r, h);
    Dedup(Owners(r.owner, Clockwise(r, h)))
  }

  /** The owner met earlier has a point nearer to the hash than every point of the later
      one: with `DedupProperties` this determines the order. */
  lemma OwnersByDistance(r: Ring, h: nat, i: nat, j: nat) returns (p: nat)
    requires Consistent(r) && h < SPACE && i < j < |OwnerOrder(r, h)|
    ensures HasOwner(r.owner, p, OwnerOrder(r, h)[i])
    ensures forall q :: HasOwner(r.owner, q, OwnerOrder(r, h)[j]) ==> Dist(p, h) < Dist(q, h)
  {
    ClockwiseMembers(r, h);
    var c := Clockwise(r, h);
    var k := DedupFirst(Owners(r.owner, c), i, j);
    p := c[k];
    assert p in c && p in Elems(r.points);
    forall q | HasOwner(r.owner, q, OwnerOrder(r, h)[j])
      ensures Dist(p, h) < Dist(q, h)
    {
      assert q in Elems(r.points);
      var m :| 0 <= m < |c| && c[m] == q;
      assert Owners(r.owner, c)[m] == OwnerOrder(r, h)[j];
      ClockwiseInOrder(r, h, k, m);
    }
  }

  lemma {:induction false} DedupFirst(s: seq<NodeId>, i: nat, j: nat) returns (k: nat)
    requires i < j < |Dedup(s)|
    ensures k < |s| && s[k] == Dedup(s)[i]
    ensures forall m :: 0 <= m < |s| && s[m] == Dedup(s)[j] ==> k < m
  {
    var front, last := s[..|s| - 1], s[|s| - 1];
    DedupProperties(front);
    DedupProperties(s);
    if j < |Dedup(front)| {
      k := DedupFirst(front, i, j);
      assert Dedup(s)[i] == Dedup(front)[i] && Dedup(s)[j] == Dedup(front)[j];
      forall m | 0 <= m < |s| && s[m] == Dedup(s)[j]
        ensures k < m
      {
        assert m < |front| ==> front[m] == s[m];
      }
    } else {
      assert Dedup(s)[i] in Elems(Dedup(front)) && Dedup(s)[i] in Elems(front);
      k :| 0 <= k < |front| && front[k] == Dedup(s)[i];
      forall m | 0 <= m < |front|
        ensures s[m] != Dedup(s)[j]
      {
        assert s[m] == front[m] && front[m] in Elems(front) && front[m] in Elems(Dedup(front));
      }
    }
  }

  /** The first min(n, node count) of them; a target below one never stops the
      walk, which then returns every owner. */
  function PreferenceList(r: Ring, h: nat, n: int): seq<NodeId>
    requires Elems(r.points) == r.owner.Keys
  {
    var order := OwnerOrder(r, h);
    var target := Min(n, |r.nodes|);
    if 1 <= target <= |order| then order[..target] else order
  }

  lemma ClockwiseMembers(r: Ring, h: nat)
    ensures |Clockwise(r, h)| == |r.points|
    ensures forall p :: p in Clockwise(r, h) <==> p in Elems(r.points)
  {
    var k := LowerBound(r.points, h);
    assert r.points == r.points[..k] + r.points[k..];
  }

  /** The source's index arithmetic walks the clockwise order. */
  lemma ClockwiseIndex(r: Ring, h: nat, start: nat, i: nat)
    requires r.points != [] && i < |r.points|
    requires start == if LowerBound(r.points, h) == |r.points| then 0 else LowerBound(r.points, h)
    ensures |Clockwise(r, h)| == |r.points|
    ensures r.points[(start + i) % |r.points|] == Clockwise(r, h)[i]
  {
    var total, k := |r.points|, LowerBound(r.points, h);
    WrapIndex(start + i, total);
    var c := Clockwise(r, h);
    assert c == r.points[k..] + r.points[..k];
    if k == total {
      assert c[i] == r.points[i];
    } else if start + i < total {
      assert c[i] == r.points[k..][i];
    } else {
      assert c[i] == r.points[..k][i - (total - k)];
    }
  }

  lemma WrapIndex(a: nat, n: nat)
    requires n > 0 && a < 2 * n
    ensures a % n == if a < n then a else a - n
  {
    if a >= n {
      assert a == n + (a - n);
      assert a / n == 1;
    }
  }

  /** Position `i` of the clockwise order is position `ClockwisePlace` of the sorted list. */
  function ClockwisePlace(r: Ring, h: nat, i: nat): int {
    var k := LowerBound(r.points, h);
    if i < |r.points| - k then i + k else i - (|r.points| - k)
  }

  lemma ClockwiseAt(r: Ring, h: nat, i: nat)
    requires i < |r.points|
    ensures |Clockwise(r, h)| == |r.points| && 0 <= ClockwisePlace(r, h, i) < |r.points|
    ensures Clockwise(r, h)[i] == r.points[ClockwisePlace(r, h, i)]
  {
    var k := LowerBound(r.points, h);
    if i < |r.points| - k {
      assert Clockwise(r, h)[i] == r.points[k..][i];
    } else {
      assert Clockwise(r, h)[i] == r.points[..k][i - (|r.points| - k)];
    }
  }

  /** Clockwise distances never decrease along the walk, and repeat only at one point. */
  lemma ClockwiseInOrder(r: Ring, h: nat, i: nat, j: nat)
    requires Consistent(r) && i < j < |r.points| && h < SPACE
    ensures |Clockwise(r, h)| == |r.points|
    ensures Clockwise(r, h)[i] != Clockwise(r, h)[j] ==> Dist(Clockwise(r, h)[i], h) < Dist(Clockwise(r, h)[j], h)
  {
    ClockwiseAt(r, h, i);
    ClockwiseAt(r, h, j);
    LowerBoundSplits(r.points, h);
    var a, b := ClockwisePlace(r, h, i), ClockwisePlace(r, h, j);
    assert r.points[a] in r.points && r.points[b] in r.points;
    assert a < b ==> r.points[a] <= r.points[b];
  }

  lemma ClockwisePair(r: Ring, h: nat, i: nat, j: nat)
    requires Ascending(r.points, 0) && i < j < |r.points|
    requires h < SPACE && forall p :: p in r.points ==> p < SPACE
    ensures |Clockwise(r, h)| == |r.points|
    ensures Dist(Clockwise(r, h)[i], h) < Dist(Clockwise(r, h)[j], h)
  {
    ClockwiseAt(r, h, i);
    ClockwiseAt(r, h, j);
    LowerBoundSplits(r.points, h);
    var a, b := ClockwisePlace(r, h, i), ClockwisePlace(r, h, j);
    assert r.points[a] in r.points && r.points[b] in r.points;
    assert a < b ==> Dist(r.points[a], 0) < Dist(r.points[b], 0);
  }

  lemma ClockwiseAscending(r: Ring, h: nat)
    requires Ascending(r.points, 0)
    requires h < SPACE && forall p :: p in r.points ==> p < SPACE
    ensures Ascending(Clockwise(r, h), h)
  {
    var c := Clockwise(r, h);
    forall i, j | 0 <= i < j < |c|
      ensures Dist(c[i], h) < Dist(c[j], h)
    {
      ClockwiseMembers(r, h);
      ClockwisePair(r, h, i, j);
    }
  }

  class HashRing {
    const scheme: Scheme
    var owner: map<nat, NodeId>
    var sortedHashes: seq<nat>
    var nodes: set<NodeId>

    ghost function State(): Ring
      reads this
    {
      Ring(owner, sortedHashes, nodes)
    }

    /** Holds even after collisions. */
    ghost predicate Loose()
      reads this
    {
      ValidScheme(scheme) && Consistent(State())
    }

    ghost predicate Valid()
      reads this
    {
      Loose() && Proper(scheme, State())
    }

    constructor (initial: seq<NodeId>, scheme: Scheme)
      requires ValidScheme(scheme)
      ensures Loose() && this.scheme == scheme && nodes == Elems(initial)
      ensures Built(scheme, initial, State())
      ensures NoCollisions(scheme, Elems(initial)) ==> Valid()
    {
      this.scheme := scheme;
      owner, sortedHashes, nodes := map[], [], {};
      new;
      for i := 0 to |initial|
        invariant Loose() && nodes == Elems(initial[..i]) && Built(scheme, initial[..i], State())
        invariant NoCollisions(scheme, Elems(initial)) ==> Valid()
      {
        ghost var prev := State();
        AddNode(initial[i]);
        BuiltOneMore(scheme, initial, i, prev, State());
      }
      assert initial[..|initial|] == initial;
    }

    /** Adding a node that is already present changes nothing. */
    method AddNode(node: NodeId)
      requires Loose()
      modifies this
      ensures Loose()
      ensures node in old(nodes) ==> State() == old(State())
      ensures node !in old(nodes) ==> Added(scheme, old(State()), State(), node)
      ensures node !in old(nodes) ==> OwnsNames(scheme, State(), node)
      ensures old(Valid()) ==> (Valid() <==> NoCollisions(scheme, old(nodes) + {node}))
    {
      if node in nodes {
        assert nodes == nodes + {node};
        return;
      }
      ghost var before := State();
      nodes := nodes + {node};
      PlacePoints(node, before);
      AddedConsistent(scheme, before, State(), node);
      AddedValidIff(scheme, before, State(), node);
      AddedOwnsNames(scheme, before, State(), node);
    }

    /** The loop of `AddNode`. */
    method PlacePoints(node: NodeId, ghost before: Ring)
      requires Sorted(sortedHashes) && State() == Ring(before.owner, before.points, before.nodes + {node})
      modifies this`owner, this`sortedHashes
      ensures Added(scheme, before, State(), node)
    {
      for i := 0 to scheme.virtualNodes
        invariant Adding(scheme, before, State(), node, i)
      {
        ghost var was := State();
        var h := Point(scheme, node, i);
        owner := owner[h := node];
        sortedHashes := Insort(sortedHashes, h);
        AddingStep(scheme, before, was, node, i, sortedHashes);
      }
    }

    /** Removing an absent node changes nothing. `ok` is false when the source raises an
        error, which leaves the ring with the node's first points removed. */
    method RemoveNode(node: NodeId) returns (ok: bool)
      requires Loose()
      modifies this
      ensures nodes == old(nodes) - {node}
      ensures node !in old(nodes) ==> ok && State() == old(State())
      ensures node in old(nodes) && ok ==> Removed(scheme, old(State()), State(), node)
      ensures node in old(nodes) && !ok ==> RemovalFailed(scheme, old(State()), State(), node)
      ensures old(Valid()) ==> ok && Valid()
    {
      if node !in nodes {
        return true;
      }
      ghost var before := State();
      nodes := nodes - {node};
      for i := 0 to scheme.virtualNodes
        invariant Removing(scheme, before, State(), node, i)
      {
        if old(Valid()) {
          RemovalProceeds(scheme, before, State(), node, i);
        }
        var h := Point(scheme, node, i);
        if h !in owner {
          return false;
        }
        var k := BisectLeft(sortedHashes, h);
        RemovingStep(scheme, before, State(), node, i, k);
        owner := owner - {h};
        sortedHashes := PopAt(sortedHashes, k);
      }
      ok := true;
      if old(Valid()) {
        RemovedCanonical(scheme, before, State(), node);
        CanonicalConsistent(scheme, State());
      }
    }

    /** None stands for the error the source raises on an empty ring. The answer
        owns the point of least clockwise distance from the key's hash. */
    method GetNode(key: string) returns (node: Option<NodeId>)
      requires Loose()
      ensures node.None? <==> sortedHashes == []
      ensures node.Some? ==>
                exists p :: p in owner && owner[p] == node.value
                  && forall q :: q in owner ==> Dist(p, scheme.hash(key)) <= Dist(q, scheme.hash(key))
      ensures node.Some? ==> OwnerOrder(State(), scheme.hash(key))[..1] == [node.value]
    {
      if sortedHashes == [] {
        return None;
      }
      var h := scheme.hash(key);
      var idx := BisectLeft(sortedHashes, h);
      if idx == |sortedHashes| {
        idx := 0;
      }
      var p := sortedHashes[idx];
      assert p in Elems(sortedHashes);
      node := Some(owner[p]);
      NearestPoint(State(), h);
    }

    method GetPreferenceList(key: string, n: int) returns (result: Option<seq<NodeId>>)
      requires Loose()
      ensures result.None? <==> sortedHashes == []
      ensures result.Some? ==> result.value == PreferenceList(State(), scheme.hash(key), n)
    {
      if sortedHashes == [] {
        return None;
      }
      var target := Min(n, |nodes|);
      var h := scheme.hash(key);
      var start := BisectLeft(sortedHashes, h);
      if start == |sortedHashes| {
        start := 0;
      }
      var list := Walk(owner, sortedHashes, start, target, State(), h);
      result := Some(list);
    }
  }

  /** The loop of the preference walk: wrap around from `start`, keep owners not
      seen yet, stop when the target is reached. */
  method Walk(owner: map<nat, NodeId>, points: seq<nat>, start: nat, target: int, ghost r: Ring, ghost h: nat)
    returns (list: seq<NodeId>)
    requires points != [] && points == r.points && owner == r.owner && Elems(points) == owner.Keys
    requires start == if LowerBound(points, h) == |points| then 0 else LowerBound(points, h)
    ensures list <= OwnerOrder(r, h)
    ensures if 1 <= target <= |OwnerOrder(r, h)| then |list| == target else list == OwnerOrder(r, h)
  {
    list := [];
    var seen: set<NodeId> := {};
    var total := |points|;
    ClockwiseMembers(r, h);
    ghost var all := Owners(owner, Clockwise(r, h));
    for i := 0 to total
      invariant list == Dedup(all[..i]) && seen == Elems(list)
      invariant |list| < target || target < 1
    {
      ClockwiseIndex(r, h, start, i);
      var node := owner[points[(start + i) % total]];
      DedupNext(all, i);
      assert node in seen <==> node in list;
      if node !in seen {
        ElemsAppend(list, node);
        seen := seen + {node};
        list := list + [node];
        if |list| == target {
          return;
        }
      }
    }
    assert all[..total] == all;
  }

  lemma FirstIsNearest(points: seq<nat>, h: nat, i: nat)
    requires Sorted(points) && i < |points| && h < SPACE
    requires forall p :: p in points ==> p < SPACE
    ensures var k := LowerBound(points, h);
            var p := points[if k < |points| then k else 0];
            points[i] != p ==> Dist(p, h) < Dist(points[i], h)
  {
    var k := LowerBound(points, h);
    LowerBoundSplits(points, h);
    var first := if k < |points| then k else 0;
    assert first < i ==> points[first] <= points[i];
    assert points[first] in points;
  }

  lemma FirstClockwise(r: Ring, h: nat)
    requires r.points != []
    ensures Clockwise(r, h) != []
    ensures var k := LowerBound(r.points, h); Clockwise(r, h)[0] == r.points[if k < |r.points| then k else 0]
  {
    ClockwiseMembers(r, h);
  }

  /** The first clockwise point minimises the distance from the hash, strictly among
      different points. */
  lemma NearestPoint(r: Ring, h: nat)
    requires Consistent(r) && r.points != [] && h < SPACE
    ensures var p := Clockwise(r, h)[0];
            && p in r.owner
            && OwnerOrder(r, h)[..1] == [r.owner[p]]
            && forall q :: q in r.owner && q != p ==> Dist(p, h) < Dist(q, h)
  {
    FirstClockwise(r, h);
    ClockwiseMembers(r, h);
    var p := Clockwise(r, h)[0];
    assert p in Clockwise(r, h) && p in Elems(r.points);
    forall q | q in r.owner && q != p
      ensures Dist(p, h) < Dist(q, h)
    {
      assert q in Elems(r.points);
      var i :| 0 <= i < |r.points| && r.points[i] == q;
      FirstIsNearest(r.points, h, i);
    }
    FirstOwner(r, h);
  }

  lemma FirstOwner(r: Ring, h: nat)
    requires Elems(r.points) == r.owner.Keys && r.points != []
    ensures Clockwise(r, h) != [] && Clockwise(r, h)[0] in r.owner
    ensures OwnerOrder(r, h)[..1] == [r.owner[Clockwise(r, h)[0]]]
  {
    ClockwiseMembers(r, h);
    assert Clockwise(r, h)[0] in Clockwise(r, h);
    DedupProperties(Owners(r.owner, Clockwise(r, h)));
  }

  lemma PointsBounded(sc: Scheme, r: Ring)
    requires ValidScheme(sc) && Canonical(sc, r)
    ensures forall p :: p in r.points ==> p < SPACE
  {
    forall p | p in r.points
      ensures p < SPACE
    {
      assert p in Elems(r.points);
      var n := r.owner[p];
      assert HasOwner(r.owner, p, n);
      var i :| 0 <= i < sc.virtualNodes && Point(sc, n, i) == p;
      assert sc.hash(VirtualName(n, i)) < SPACE;
    }
  }

  lemma CanonicalConsistent(sc: Scheme, r: Ring)
    requires ValidScheme(sc) && Canonical(sc, r)
    ensures Consistent(r)
  {
    AscendingIsSortedDistinct(r.points);
    PointsBounded(sc, r);
  }
}
