/** Hints parked for unreachable nodes: a two-level map, one blob per target. */
module HintStores {
  import opened Basics
  import opened VectorClocks
  import opened Antichains

  type Key = string

  type Blob = map<Key, seq<Version>>

  type Store = map<NodeId, Blob>

  function LoadBlob(store: Store, target: NodeId): Blob {
    if target in store then store[target] else map[]
  }

  function Pending(store: Store, target: NodeId, key: Key): seq<Version> {
    var blob := LoadBlob(store, target);
    if key in blob then blob[key] else []
  }

  function Added(store: Store, target: NodeId, key: Key, version: Version): Store {
    store[target := LoadBlob(store, target)[key := Reconciled(Pending(store, target, key), version)]]
  }

  function Cleared(store: Store, target: NodeId, key: Key): Store {
    var blob := LoadBlob(store, target);
    if key !in blob then store
    else if blob - {key} != map[] then store[target := blob - {key}]
    else store - {target}
  }

  class HintStore {
    var storage: Store

    constructor ()
      ensures storage == map[]
    {
      storage := map[];
    }

    method Add(target: NodeId, key: Key, version: Version)
      modifies this
      ensures storage == Added(old(storage), target, key, version)
    {
      var blob := LoadBlob(storage, target);
      var existing := if key in blob then blob[key] else [];
      var merged := Reconcile(existing, version);
      blob := blob[key := merged];
      storage := storage[target := blob];
    }

    method PendingFor(target: NodeId) returns (pending: map<Key, seq<Version>>)
      ensures pending.Keys == LoadBlob(storage, target).Keys
      ensures forall key :: key in pending ==> pending[key] == Pending(storage, target, key)
    {
      pending := LoadBlob(storage, target);
    }

    /** The blob is deleted with its last key, so no empty blob is stored. */
    method ClearKey(target: NodeId, key: Key)
      modifies this
      ensures storage == Cleared(old(storage), target, key)
    {
      var blob := LoadBlob(storage, target);
      if key !in blob {
        return;
      }
      blob := blob - {key};
      if blob != map[] {
        storage := storage[target := blob];
      } else {
        storage := storage - {target};
      }
    }

    method HasPending(target: NodeId) returns (pending: bool)
      ensures pending <==> target in storage
    {
      pending := target in storage;
    }
  }

  // ----- histories

  datatype HintOp = Park(target: NodeId, key: Key, version: Version) | Clear(target: NodeId, key: Key)

  function ApplyOp(store: Store, op: HintOp): Store {
    match op
    case Park(target, key, version) => Added(store, target, key, version)
    case Clear(target, key) => Cleared(store, target, key)
  }

  function Replay(ops: seq<HintOp>): Store {
    if ops == [] then map[]
    else ApplyOp(Replay(ops[..|ops| - 1]), ops[|ops| - 1])
  }

  /** The versions parked for a pair since that pair was last cleared. */
  function SinceCleared(ops: seq<HintOp>, target: NodeId, key: Key): seq<Version> {
    if ops == [] then []
    else
      var before := SinceCleared(ops[..|ops| - 1], target, key);
      match ops[|ops| - 1]
      case Park(t, k, version) => if t == target && k == key then before + [version] else before
      case Clear(t, k) => if t == target && k == key then [] else before
  }

  ghost predicate NoEmptyBlob(store: Store) {
    forall target :: target in store ==> store[target] != map[]
  }

  lemma {:induction false} AddedEffect(store: Store, t: NodeId, k: Key, v: Version, target: NodeId, key: Key)
    ensures Pending(Added(store, t, k, v), target, key)
              == if t == target && k == key then Reconciled(Pending(store, t, k), v) else Pending(store, target, key)
    ensures key in LoadBlob(Added(store, t, k, v), target) <==>
              (t == target && k == key) || key in LoadBlob(store, target)
  {}

  lemma {:induction false} ClearedEffect(store: Store, t: NodeId, k: Key, target: NodeId, key: Key)
    ensures Pending(Cleared(store, t, k), target, key)
              == if t == target && k == key then [] else Pending(store, target, key)
    ensures key in LoadBlob(Cleared(store, t, k), target) <==>
              !(t == target && k == key) && key in LoadBlob(store, target)
  {
    var blob := LoadBlob(store, t);
    if k in blob && blob - {k} == map[] && t == target && key != k {
      assert key in blob ==> key in blob - {k};
    }
  }

  /** After any sequence of operations, a pair's hints are the fold of exactly the
      versions parked since the pair was last cleared. Operations on another target
      or another key do not interfere. */
  lemma {:induction false} StoreRefinesHistory(ops: seq<HintOp>, target: NodeId, key: Key)
    ensures Pending(Replay(ops), target, key) == Fold([], SinceCleared(ops, target, key))
    ensures key in LoadBlob(Replay(ops), target) <==> SinceCleared(ops, target, key) != []
  {
    if ops != [] {
      var front := ops[..|ops| - 1];
      StoreRefinesHistory(front, target, key);
      match ops[|ops| - 1]
      case Park(t, k, v) =>
        AddedEffect(Replay(front), t, k, v, target, key);
        var since := SinceCleared(front, target, key);
        assert (since + [v])[..|since|] == since;
      case Clear(t, k) =>
        ClearedEffect(Replay(front), t, k, target, key);
    }
  }

  /** Hence the hints of a pair are the maximal antichain of that history. */
  lemma {:induction false} HintsAreMaximalAntichain(ops: seq<HintOp>, target: NodeId, key: Key)
    ensures MaximalAntichain(Pending(Replay(ops), target, key), Elems(SinceCleared(ops, target, key)))
  {
    StoreRefinesHistory(ops, target, key);
    FoldIsMaximalAntichain(SinceCleared(ops, target, key));
  }

  lemma {:induction false} ReplayHasNoEmptyBlob(ops: seq<HintOp>)
    ensures NoEmptyBlob(Replay(ops))
  {
    if ops != [] {
      ReplayHasNoEmptyBlob(ops[..|ops| - 1]);
      match ops[|ops| - 1]
      case Park(t, k, v) =>
        assert k in Replay(ops)[t];
      case Clear(t, k) =>
    }
  }

  /** A target has pending hints exactly when some key was parked for it after that
      pair's last clear; and every list handed out is non-empty. */
  lemma {:induction false} HasPendingExact(ops: seq<HintOp>, target: NodeId)
    ensures target in Replay(ops) <==> exists key :: SinceCleared(ops, target, key) != []
    ensures forall key :: key in LoadBlob(Replay(ops), target) ==> Pending(Replay(ops), target, key) != []
  {
    ReplayHasNoEmptyBlob(ops);
    var store := Replay(ops);
    if target in store {
      var key :| key in store[target];
      StoreRefinesHistory(ops, target, key);
    }
    if key :| SinceCleared(ops, target, key) != [] {
      StoreRefinesHistory(ops, target, key);
    }
    forall key | key in LoadBlob(store, target)
      ensures Pending(store, target, key) != []
    {
      StoreRefinesHistory(ops, target, key);
      var since := SinceCleared(ops, target, key);
      assert Leq(since[0].clock, since[0].clock);
      FoldCovers([], since, since[0].clock);
    }
  }
}
