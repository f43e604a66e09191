/** The replication protocol of a key runs on what the ring hands out. */
module Placement {
  import opened Basics
  import opened VectorClocks
  import opened HashRings
  import opened RingStability
  import Replication

  /** Replica list and hint holder of a key hashed to `h`, as `put` computes them. */
  function ConfigFor(ring: Ring, h: nat, n: nat, r: nat, w: nat): Replication.Config
    requires Elems(ring.points) == ring.owner.Keys
  {
    var prefs := PreferenceList(ring, h, n);
    Replication.Config(prefs, HintHolder(PreferenceList(ring, h, |prefs| + 1), prefs), n, r, w)
  }

  /** A canonical non-empty ring and positive N, R and W always yield a configuration
      the protocol's theorems apply to. Hints are possible exactly with a spare node, and
      quorums overlap exactly when R + W exceeds the smaller of N and the node count. */
  lemma {:induction false} RingYieldsValidConfig(sc: Scheme, ring: Ring, h: nat, n: nat, r: nat, w: nat)
    requires ValidScheme(sc) && Canonical(sc, ring) && sc.virtualNodes >= 1 && h < SPACE
    requires ring.nodes != {} && n >= 1 && r >= 1 && w >= 1
    ensures Replication.ValidConfig(ConfigFor(ring, h, n, r, w))
    ensures n < |OwnerOrder(ring, h)| <==> |ring.nodes| > n
    ensures var c := ConfigFor(ring, h, n, r, w);
            && c.r == r && c.w == w && c.prefs == OwnerOrder(ring, h)[..Min(n, |OwnerOrder(ring, h)|)]
            && c.spare == if |ring.nodes| > n then Some(OwnerOrder(ring, h)[n]) else None
    ensures Replication.Overlapping(ConfigFor(ring, h, n, r, w)) <==> r + w > Min(n, |ring.nodes|)
  {
    PreferenceListShape(sc, ring, h, n);
    HintHolderIsNextOwner(sc, ring, h, n);
    OwnerOrderComplete(sc, ring, h);
    assert |ring.nodes| >= 1;
  }
}
