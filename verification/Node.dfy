/** One node: its local storage, hint store and gossip state, and the coordinator
    code of answers, writes and hint flushing.

    Remote calls appear through their outcomes. Threads finish in the order given
    by the arguments; how several coordinators interleave is `Replication`'s part. */
module Nodes {
  import opened Basics
  import opened VectorClocks
  import opened Antichains
  import opened Quorums
  import opened HintStores
  import opened Gossip
  import Replication

  /** What became of a request to a replica: answered with success, applied although
      the answer was an error or got lost, or not applied. */
  datatype Delivery = Confirmed | AppliedOnly | NotApplied

  datatype PutResult = Written(version: Version) | WriteUnavailable(version: Version) | ReadUnavailable

  function Local(storage: Blob, key: Key): seq<Version> {
    if key in storage then storage[key] else []
  }

  function Stored(storage: Blob, key: Key, version: Version): Blob {
    storage[key := Reconciled(Local(storage, key), version)]
  }

  /** The replies a quorum read keeps. */
  function Taken(answers: seq<Outcome<seq<Version>>>, threshold: nat): seq<seq<Version>> {
    var all := Successes(answers);
    all[..Min(|all|, Max(threshold, 1))]
  }

  function DownNow(prefs: seq<NodeId>, table: Table, self: NodeId, now: real, timeout: real): set<NodeId> {
    set t | t in prefs && BelievedDown(table, self, t, now, timeout)
  }

  /** The replicas whose write raised, in completion order. */
  function Failed(order: seq<NodeId>, ok: NodeId -> bool): seq<NodeId> {
    if order == [] then []
    else
      var rest := Failed(order[..|order| - 1], ok);
      if ok(order[|order| - 1]) then rest else rest + [order[|order| - 1]]
  }

  function WriteOutcomes(order: seq<NodeId>, ok: NodeId -> bool): seq<Outcome<bool>> {
    seq(|order|, i requires 0 <= i < |order| => if ok(order[i]) then Success(true) else Failure)
  }

  /** The positions of the writes that succeed. */
  ghost function OkAt(order: seq<NodeId>, ok: NodeId -> bool): set<nat> {
    set i: nat | i < |order| && ok(order[i])
  }

  lemma {:induction false} OkCounted(order: seq<NodeId>, ok: NodeId -> bool)
    ensures |Successes(WriteOutcomes(order, ok))| == |OkAt(order, ok)|
  {
    SuccessesCounted(WriteOutcomes(order, ok));
    assert SuccessesAt(WriteOutcomes(order, ok)) == OkAt(order, ok);
  }

  /** A quorum read keeps the first successes it needs, in completion order, at least one
      if there is any, and nothing else. */
  lemma {:induction false} TakenAreFirst(answers: seq<Outcome<seq<Version>>>, threshold: nat, i: nat)
    requires i < |answers| && answers[i].Success?
    ensures |Taken(answers, threshold)| == Min(|SuccessesAt(answers)|, Max(threshold, 1))
    ensures var k := |SuccessesAt(answers[..i])|;
            k < |Taken(answers, threshold)| ==> Taken(answers, threshold)[k] == answers[i].value
  {
    SuccessesInOrder(answers, i);
  }

  /** Parking one version for each of the targets in turn. */
  function ParkedFor(store: Store, targets: seq<NodeId>, key: Key, v: Version): Store {
    if targets == [] then store
    else Added(ParkedFor(store, targets[..|targets| - 1], key, v), targets[|targets| - 1], key, v)
  }

  // ----- flushing one key, as a function of the deliveries

  function AppliedVersions(versions: seq<Version>, outcome: nat -> Delivery): seq<Version> {
    if versions == [] then []
    else
      var last := |versions| - 1;
      var rest := AppliedVersions(versions[..last], outcome);
      if outcome(last).NotApplied? then rest else rest + [versions[last]]
  }

  ghost predicate AnyConfirmed(k: nat, outcome: nat -> Delivery) {
    exists i :: 0 <= i < k && outcome(i).Confirmed?
  }

  /** What flushing one key does: the target applies what reached it, in order, and
      one confirmation clears all hints of the key. */
  ghost predicate KeyFlushed(replica: seq<Version>, replica': seq<Version>,
                             hints: seq<Version>, hints': seq<Version>, outcome: nat -> Delivery) {
    && replica' == Fold(replica, AppliedVersions(hints, outcome))
    && hints' == if AnyConfirmed(|hints|, outcome) then [] else hints
  }

  class Node {
    const nodeId: NodeId
    const r: nat
    const w: nat
    const timeout: real
    const hintStore: HintStore
    const gossip: GossipState
    var storage: Blob

    ghost predicate Valid()
      reads this, gossip
    {
      gossip.Valid() && gossip.nodeId == nodeId
    }

    constructor (nodeId: NodeId, r: nat, w: nat, timeout: real, now: real)
      ensures Valid() && storage == map[] && hintStore.storage == map[]
      ensures this.nodeId == nodeId && this.r == r && this.w == w && this.timeout == timeout
      ensures fresh(hintStore) && fresh(gossip)
    {
      this.nodeId, this.r, this.w, this.timeout := nodeId, r, w, timeout;
      storage := map[];
      hintStore := new HintStore();
      gossip := new GossipState(nodeId, now);
    }

    method GetLocal(key: Key) returns (versions: seq<Version>)
      ensures versions == Local(storage, key)
      ensures key in storage ==> versions == storage[key]
      ensures key !in storage ==> versions == []
    {
      versions := if key in storage then storage[key] else [];
    }

    method PutLocal(key: Key, version: Version)
      modifies this
      ensures storage == Stored(old(storage), key, version)
    {
      var existing := GetLocal(key);
      var merged := Reconcile(existing, version);
      storage := storage[key := merged];
    }

    method AddHint(target: NodeId, key: Key, version: Version)
      modifies hintStore
      ensures hintStore.storage == Added(old(hintStore.storage), target, key, version)
    {
      hintStore.Add(target, key, version);
    }

    method HandleGossip(incoming: Wire, now: real) returns (reply: Wire)
      requires Valid()
      modifies gossip
      ensures Valid() && gossip.table == MergedTable(old(gossip.table), nodeId, incoming, now)
      ensures reply == WireOf(gossip.table)
    {
      gossip.MergeWire(incoming, now);
      reply := gossip.ToWire();
    }

    /** The exchange of a gossip round: tick at `ticked`, push the table, merge the
        answer at `merged`. The push may be lost, and so may the answer after the peer
        has merged. */
    method GossipExchange(peer: Node, received: bool, answered: bool, ticked: real, peerNow: real, merged: real)
      requires Valid() && peer.Valid() && gossip != peer.gossip
      modifies gossip, peer.gossip
      ensures Valid() && peer.Valid()
      ensures var pushed := Ticked(old(gossip.table), nodeId, ticked);
              && peer.gossip.table ==
                 (if received then MergedTable(old(peer.gossip.table), peer.nodeId, WireOf(pushed), peerNow)
                  else old(peer.gossip.table))
              && gossip.table ==
                 (if received && answered
                     then MergedTable(pushed, nodeId, WireOf(peer.gossip.table), merged) else pushed)
    {
      gossip.Tick(ticked);
      var wire := gossip.ToWire();
      if received {
        var reply := peer.HandleGossip(wire, peerNow);
        if answered {
          gossip.MergeWire(reply, merged);
        }
      }
    }

    /** Down are the other nodes that are known and silent for longer than the timeout.
        Both parts keep the order of the replica list; together they are the list, and a
        node never presumes itself down. */
    method PartitionByLiveness(prefs: seq<NodeId>, now: real) returns (live: seq<NodeId>, down: seq<NodeId>)
      requires Valid()
      ensures var d := DownNow(prefs, gossip.table, nodeId, now, timeout);
              && down == Replication.KeepIn(prefs, d)
              && live == Replication.KeepIn(prefs, Elems(prefs) - d)
      ensures nodeId !in DownNow(prefs, gossip.table, nodeId, now, timeout)
      ensures forall t :: t in down <==>
                t in prefs && t != nodeId && t in gossip.table && now - gossip.table[t].seen > timeout
      ensures forall t :: t in live <==>
                t in prefs && (t == nodeId || t !in gossip.table || now - gossip.table[t].seen <= timeout)
    {
      live, down := [], [];
      ghost var d := DownNow(prefs, gossip.table, nodeId, now, timeout);
      for i := 0 to |prefs|
        invariant down == Replication.KeepIn(prefs[..i], d)
        invariant live == Replication.KeepIn(prefs[..i], Elems(prefs) - d)
      {
        assert prefs[..i + 1][..i] == prefs[..i];
        var isDown := gossip.IsBelievedDown(prefs[i], now, timeout);
        if isDown {
          down := down + [prefs[i]];
        } else {
          live := live + [prefs[i]];
        }
      }
      assert prefs[..|prefs|] == prefs;
      Replication.KeepInMembers(prefs, d);
      Replication.KeepInMembers(prefs, Elems(prefs) - d);
    }

    /** None stands for the 503 answer. */
    method MergedRead(answers: seq<Outcome<seq<Version>>>, threshold: nat) returns (merged: Option<seq<Version>>)
      ensures merged.None? <==> |Taken(answers, threshold)| < threshold
      ensures merged.None? <==> |SuccessesAt(answers)| < threshold
      ensures merged.Some? ==> merged.value == MergedReplies(Taken(answers, threshold))
    {
      var results := QuorumOp(answers, threshold);
      assert results == Taken(answers, threshold);
      SuccessesCounted(answers);
      if |results| < threshold {
        return None;
      }
      var list := MergeReplies(results);
      return Some(list);
    }

    /** A read is unavailable exactly when fewer replicas than R succeed and at least one
        of the list does not. */
    method Read(prefs: seq<NodeId>, answers: seq<Outcome<seq<Version>>>) returns (response: Response)
      ensures response.Unavailable? <==> |SuccessesAt(answers)| < r && |SuccessesAt(answers)| < |prefs|
      ensures var threshold := Threshold(r, |prefs|);
              response == ReadResponse(Taken(answers, threshold), threshold)
    {
      var threshold := Min(r, |prefs|);
      var merged := MergedRead(answers, threshold);
      if merged.None? {
        return Unavailable;
      }
      if merged.value == [] {
        return NotFound;
      }
      if |merged.value| == 1 {
        return Found(merged.value[0]);
      }
      return Conflict(merged.value);
    }

    /** The hint goes to `holder` on behalf of `target`; only a hint this node holds
        itself changes local state. */
    method DeliverHint(holder: NodeId, target: NodeId, key: Key, version: Version)
      modifies hintStore
      ensures hintStore.storage ==
              if holder == nodeId then Added(old(hintStore.storage), target, key, version) else old(hintStore.storage)
    {
      if holder == nodeId {
        hintStore.Add(target, key, version);
      }
    }

    /** One hint for each of the targets, in order. */
    method DeliverHints(holder: NodeId, targets: seq<NodeId>, key: Key, version: Version)
      modifies hintStore
      ensures hintStore.storage ==
              if holder == nodeId then ParkedFor(old(hintStore.storage), targets, key, version)
              else old(hintStore.storage)
    {
      for i := 0 to |targets|
        invariant hintStore.storage ==
                  if holder == nodeId then ParkedFor(old(hintStore.storage), targets[..i], key, version)
                  else old(hintStore.storage)
      {
        ParkedOneMore(old(hintStore.storage), targets[..i], targets[i], key, version);
        assert targets[..i + 1] == targets[..i] + [targets[i]];
        DeliverHint(holder, targets[i], key, version);
      }
      assert targets[..|targets|] == targets;
    }

    /** A put whose writes finish in the order `order`, with success where `ok` says so
        (a local write always succeeds). `hinted` lists the hints sent, in order. */
    method Put(key: Key, value: Value, prefs: seq<NodeId>, holder: Option<NodeId>,
               answers: seq<Outcome<seq<Version>>>, order: seq<NodeId>, ok: NodeId -> bool, now: real)
      returns (result: PutResult, hinted: seq<NodeId>)
      requires Valid()
      requires multiset(order) ==
               multiset(Replication.KeepIn(prefs, Elems(prefs) - DownNow(prefs, gossip.table, nodeId, now, timeout)))
      requires ok(nodeId)
      modifies this, hintStore
      ensures result.ReadUnavailable? <==> |SuccessesAt(answers)| < r && |SuccessesAt(answers)| < |prefs|
      ensures !result.ReadUnavailable? ==>
                && result.version.value == value
                && (result.Written? <==> |OkAt(order, ok)| >= w || |OkAt(order, ok)| >= |prefs|)
                && forall t :: t in hinted <==>
                     holder.Some? &&
                     ((t in prefs && t != nodeId && t in gossip.table && now - gossip.table[t].seen > timeout)
                      || (t in order && !ok(t)))
      ensures var threshold := Threshold(r, |prefs|);
              var replies := Taken(answers, threshold);
              if |replies| < threshold then
                result == ReadUnavailable && hinted == [] && storage == old(storage)
                && hintStore.storage == old(hintStore.storage)
              else
                var version := NextVersion(nodeId, value, replies);
                var down := Replication.KeepIn(prefs, DownNow(prefs, gossip.table, nodeId, now, timeout));
                && hinted == (if holder.None? then [] else down + Failed(order, ok))
                && result == (if |Successes(WriteOutcomes(order, ok))| >= Threshold(w, |prefs|)
                              then Written(version) else WriteUnavailable(version))
                && storage == (if nodeId in order
                               then Stored(old(storage), key, version) else old(storage))
                && hintStore.storage ==
                   (if holder == Some(nodeId) then ParkedFor(old(hintStore.storage), hinted, key, version)
                    else old(hintStore.storage))
    {
      var readThreshold := Min(r, |prefs|);
      hinted := [];
      var merged := MergedRead(answers, readThreshold);
      if merged.None? {
        return ReadUnavailable, hinted;
      }
      var clock := Merge(Clocks(merged.value));
      var version := Version(value, Incremented(clock, nodeId));
      var live, down := PartitionByLiveness(prefs, now);
      ghost var before := hintStore.storage;
      if holder.Some? {
        DeliverHints(holder.value, down, key, version);
        hinted := down;
      }
      var failed := RunWrites(key, version, holder, order, ok);
      FailedMembers(order, ok);
      hinted := hinted + failed;
      ParkedConcat(before, down, failed, key, version);
      var writeThreshold := Min(w, |prefs|);
      var successes := QuorumOp(WriteOutcomes(order, ok), writeThreshold);
      QuorumReached(WriteOutcomes(order, ok), writeThreshold, |successes|);
      OkCounted(order, ok);
      if |successes| < writeThreshold {
        return WriteUnavailable(version), hinted;
      }
      return Written(version), hinted;
    }

    /** One write thread: store locally, or call the replica; a raising call sends a hint. */
    method GuardedPut(key: Key, version: Version, holder: Option<NodeId>, t: NodeId, succeeds: bool)
      returns (hint: bool)
      requires t == nodeId ==> succeeds
      modifies this, hintStore
      ensures hint <==> !succeeds && holder.Some?
      ensures storage == if t == nodeId then Stored(old(storage), key, version) else old(storage)
      ensures hintStore.storage ==
              if hint && holder == Some(nodeId) then Added(old(hintStore.storage), t, key, version)
              else old(hintStore.storage)
    {
      hint := false;
      if t == nodeId {
        PutLocal(key, version);
      } else if !succeeds && holder.Some? {
        DeliverHint(holder.value, t, key, version);
        hint := true;
      }
    }

    /** All write threads run to their end, also those the quorum no longer waits for. */
    method RunWrites(key: Key, version: Version, holder: Option<NodeId>, order: seq<NodeId>, ok: NodeId -> bool)
      returns (hinted: seq<NodeId>)
      requires ok(nodeId)
      modifies this, hintStore
      ensures hinted == if holder.None? then [] else Failed(order, ok)
      ensures storage == if nodeId in order then Stored(old(storage), key, version) else old(storage)
      ensures hintStore.storage ==
              if holder == Some(nodeId) then ParkedFor(old(hintStore.storage), hinted, key, version)
              else old(hintStore.storage)
    {
      hinted := [];
      for i := 0 to |order|
        invariant hinted == if holder.None? then [] else Failed(order[..i], ok)
        invariant storage == if nodeId in order[..i] then Stored(old(storage), key, version) else old(storage)
        invariant hintStore.storage ==
                  if holder == Some(nodeId) then ParkedFor(old(hintStore.storage), hinted, key, version)
                  else old(hintStore.storage)
      {
        FailedOneMore(order, ok, i);
        StoredTwice(old(storage), key, version);
        ParkedOneMore(old(hintStore.storage), hinted, order[i], key, version);
        var hint := GuardedPut(key, version, holder, order[i], ok(order[i]));
        if hint {
          hinted := hinted + [order[i]];
        }
      }
      assert order[..|order|] == order;
    }

    /** Delivers every hint of a snapshot to `peer`. The first confirmation of a key
        clears all of that key's hints, whatever became of the others. */
    method FlushHintsFor(peer: Node, outcome: Key -> nat -> Delivery)
      requires peer != this
      modifies peer, hintStore
      ensures forall key ::
                KeyFlushed(Local(old(peer.storage), key), Local(peer.storage, key),
                           Pending(old(hintStore.storage), peer.nodeId, key),
                           Pending(hintStore.storage, peer.nodeId, key), outcome(key))
      ensures forall target, key :: target != peer.nodeId ==>
                Pending(hintStore.storage, target, key) == Pending(old(hintStore.storage), target, key)
    {
      var pending := hintStore.PendingFor(peer.nodeId);
      var todo := pending.Keys;
      ghost var storage0, hints0 := peer.storage, hintStore.storage;
      while todo != {}
        invariant todo <= pending.Keys
        invariant forall key {:trigger Local(peer.storage, key)} :: key !in todo ==>
            KeyFlushed(Local(storage0, key), Local(peer.storage, key), Pending(hints0, peer.nodeId, key),
                       Pending(hintStore.storage, peer.nodeId, key), outcome(key))
        invariant forall key {:trigger Local(peer.storage, key)} :: key in todo ==>
            Local(peer.storage, key) == Local(storage0, key)
            && Pending(hintStore.storage, peer.nodeId, key) == Pending(hints0, peer.nodeId, key)
        invariant forall target, key :: target != peer.nodeId ==>
            Pending(hintStore.storage, target, key) == Pending(hints0, target, key)
        decreases todo
      {
        var key :| key in todo;
        assert Local(peer.storage, key) == Local(storage0, key);
        FlushKey(peer, key, pending[key], outcome(key));
        todo := todo - {key};
      }
    }

    method FlushKey(peer: Node, key: Key, versions: seq<Version>, outcome: nat -> Delivery)
      requires peer != this
      requires versions == Pending(hintStore.storage, peer.nodeId, key)
      modifies peer, hintStore
      ensures KeyFlushed(Local(old(peer.storage), key), Local(peer.storage, key), versions,
                         Pending(hintStore.storage, peer.nodeId, key), outcome)
      ensures forall k :: k != key ==> Local(peer.storage, k) == Local(old(peer.storage), k)
      ensures forall target, k :: target != peer.nodeId || k != key ==>
                Pending(hintStore.storage, target, k) == Pending(old(hintStore.storage), target, k)
    {
      for i := 0 to |versions|
        invariant Local(peer.storage, key) == Fold(Local(old(peer.storage), key), AppliedVersions(versions[..i],
            outcome))
        invariant forall k :: k != key ==> Local(peer.storage, k) == Local(old(peer.storage), k)
        invariant Pending(hintStore.storage, peer.nodeId, key) == if AnyConfirmed(i, outcome) then [] else versions
        invariant forall target, k :: target != peer.nodeId || k != key ==>
            Pending(hintStore.storage, target, k) == Pending(old(hintStore.storage), target, k)
      {
        AppliedNext(Local(old(peer.storage), key), versions, outcome, i);
        ghost var store := hintStore.storage;
        FlushOne(peer, key, versions[i], outcome(i));
        ClearedElsewhere(store, peer.nodeId, key);
      }
      assert versions[..|versions|] == versions;
    }

    /** One delivery attempt; a confirmation clears the key. */
    method FlushOne(peer: Node, key: Key, version: Version, delivery: Delivery)
      requires peer != this
      modifies peer, hintStore
      ensures peer.storage ==
              if delivery.NotApplied? then old(peer.storage) else Stored(old(peer.storage), key, version)
      ensures hintStore.storage ==
              if delivery.Confirmed? then Cleared(old(hintStore.storage), peer.nodeId, key) else old(hintStore.storage)
    {
      if !delivery.NotApplied? {
        peer.PutLocal(key, version);
      }
      if delivery.Confirmed? {
        hintStore.ClearKey(peer.nodeId, key);
      }
    }
  }

  lemma {:induction false} AppliedOneMore(versions: seq<Version>, outcome: nat -> Delivery, i: nat)
    requires i < |versions|
    ensures AppliedVersions(versions[..i + 1], outcome)
            == AppliedVersions(versions[..i], outcome) + if outcome(i).NotApplied? then [] else [versions[i]]
  {
    assert versions[..i + 1][..i] == versions[..i];
  }

  lemma {:induction false} ConfirmedOneMore(outcome: nat -> Delivery, i: nat)
    ensures AnyConfirmed(i + 1, outcome) <==> AnyConfirmed(i, outcome) || outcome(i).Confirmed?
  {}

  lemma {:induction false} AppliedNext(replica: seq<Version>, versions: seq<Version>, outcome: nat -> Delivery, i: nat)
    requires i < |versions|
    ensures var before := Fold(replica, AppliedVersions(versions[..i], outcome));
            Fold(replica, AppliedVersions(versions[..i + 1], outcome))
            == if outcome(i).NotApplied? then before else Reconciled(before, versions[i])
    ensures AnyConfirmed(i + 1, outcome) <==> AnyConfirmed(i, outcome) || outcome(i).Confirmed?
  {
    AppliedOneMore(versions, outcome, i);
    ConfirmedOneMore(outcome, i);
    FoldOneMore(replica, AppliedVersions(versions[..i], outcome), versions[i]);
    assert AppliedVersions(versions[..i], outcome) + [] == AppliedVersions(versions[..i], outcome);
  }

  lemma {:induction false} ClearedElsewhere(store: Store, t: NodeId, k: Key)
    ensures Pending(Cleared(store, t, k), t, k) == []
    ensures forall target, key :: target != t || key != k ==>
              Pending(Cleared(store, t, k), target, key) == Pending(store, target, key)
  {
    ClearedEffect(store, t, k, t, k);
    forall target, key | target != t || key != k
      ensures Pending(Cleared(store, t, k), target, key) == Pending(store, target, key)
    {
      ClearedEffect(store, t, k, target, key);
    }
  }

  lemma {:induction false} StoredTwice(storage: Blob, key: Key, v: Version)
    ensures Stored(Stored(storage, key, v), key, v) == Stored(storage, key, v)
  {
    assert Leq(v.clock, v.clock);
    ReconciledCovers(Local(storage, key), v, v.clock);
  }

  lemma {:induction false} FailedOneMore(order: seq<NodeId>, ok: NodeId -> bool, i: nat)
    requires i < |order|
    ensures Failed(order[..i + 1], ok) == Failed(order[..i], ok) + if ok(order[i]) then [] else [order[i]]
    ensures forall t :: t in order[..i + 1] <==> t in order[..i] || t == order[i]
  {
    assert order[..i + 1] == order[..i] + [order[i]];
  }

  lemma {:induction false} ParkedOneMore(store: Store, targets: seq<NodeId>, t: NodeId, key: Key, v: Version)
    ensures ParkedFor(store, targets + [t], key, v) == Added(ParkedFor(store, targets, key, v), t, key, v)
  {
    assert (targets + [t])[..|targets|] == targets;
  }

  lemma {:induction false} ParkedConcat(store: Store, a: seq<NodeId>, b: seq<NodeId>, key: Key, v: Version)
    ensures ParkedFor(store, a + b, key, v) == ParkedFor(ParkedFor(store, a, key, v), b, key, v)
  {
    if b == [] {
      assert a + b == a;
    } else {
      var front, last := b[..|b| - 1], b[|b| - 1];
      assert b == front + [last] && a + b == (a + front) + [last];
      ParkedConcat(store, a, front, key, v);
      ParkedOneMore(store, a + front, last, key, v);
      ParkedOneMore(ParkedFor(store, a, key, v), front, last, key, v);
    }
  }

  lemma {:induction false} QuorumReached<T>(completions: seq<Outcome<T>>, threshold: nat, counted: nat)
    requires counted == Min(|Successes(completions)|, Max(threshold, 1))
    ensures counted >= threshold <==> |Successes(completions)| >= threshold
  {}

  // ----- what a put covers, and what a flush loses

  lemma {:induction false} FailedMembers(order: seq<NodeId>, ok: NodeId -> bool)
    ensures forall t :: t in Failed(order, ok) <==> t in order && !ok(t)
  {
    if order != [] {
      FailedMembers(order[..|order| - 1], ok);
      assert order == order[..|order| - 1] + [order[|order| - 1]];
    }
  }

  /** Each replica of the key either acknowledges the write or, when the cluster has a
      spare node, is sent a hint; never both, never neither. A replica that applied the
      write but whose answer failed counts as not acknowledging, and is hinted too. */
  lemma {:induction false} WrittenOrHinted(prefs: seq<NodeId>, down: set<NodeId>, order: seq<NodeId>,
                                           ok: NodeId -> bool, t: NodeId)
    requires t in prefs && multiset(order) == multiset(Replication.KeepIn(prefs, Elems(prefs) - down))
    ensures var hinted := Replication.KeepIn(prefs, down) + Failed(order, ok);
            t in hinted <==> !(t in order && ok(t))
  {
    Replication.KeepInMembers(prefs, down);
    Replication.KeepInMembers(prefs, Elems(prefs) - down);
    FailedMembers(order, ok);
    assert t in order <==> t in multiset(order);
    assert t in Replication.KeepIn(prefs, Elems(prefs) - down)
      <==> t in multiset(Replication.KeepIn(prefs, Elems(prefs) - down));
  }

  lemma {:induction false} AppliedMembers(versions: seq<Version>, outcome: nat -> Delivery)
    ensures forall v :: v in AppliedVersions(versions, outcome) <==>
              exists i :: 0 <= i < |versions| && versions[i] == v && !outcome(i).NotApplied?
  {
    if versions != [] {
      var last := |versions| - 1;
      AppliedMembers(versions[..last], outcome);
    }
  }

  /** After flushing one key, is every hinted version still at the target or parked? */
  ghost predicate FlushKeepsAll(replica: seq<Version>, versions: seq<Version>, outcome: nat -> Delivery) {
    forall i {:trigger versions[i]} :: 0 <= i < |versions| ==>
      || Covers(Fold(replica, AppliedVersions(versions, outcome)), versions[i].clock)
      || (!AnyConfirmed(|versions|, outcome) && Covers(versions, versions[i].clock))
  }

  /** A flush loses nothing exactly when no delivery is confirmed, or every sibling it
      fails to apply was already covered by the target. */
  lemma {:induction false} FlushKeepsAllIff(replica: seq<Version>, versions: seq<Version>, outcome: nat -> Delivery)
    requires Antichain(versions)
    ensures FlushKeepsAll(replica, versions, outcome) <==>
            || !AnyConfirmed(|versions|, outcome)
            || forall i {:trigger versions[i]} :: 0 <= i < |versions| ==>
                 !outcome(i).NotApplied? || Covers(replica, versions[i].clock)
  {
    var applied := AppliedVersions(versions, outcome);
    AppliedMembers(versions, outcome);
    forall i | 0 <= i < |versions|
      ensures Covers(versions, versions[i].clock)
      ensures Covers(Fold(replica, applied), versions[i].clock) <==>
              !outcome(i).NotApplied? || Covers(replica, versions[i].clock)
    {
      assert versions[i] in versions && Leq(versions[i].clock, versions[i].clock);
      FoldCovers(replica, applied, versions[i].clock);
      AppliedCoversItself(versions, outcome, i);
    }
  }

  lemma {:induction false} AppliedCoversItself(versions: seq<Version>, outcome: nat -> Delivery, i: nat)
    requires Antichain(versions) && i < |versions|
    ensures Covers(AppliedVersions(versions, outcome), versions[i].clock) <==> !outcome(i).NotApplied?
  {
    var applied := AppliedVersions(versions, outcome);
    AppliedMembers(versions, outcome);
    if !outcome(i).NotApplied? {
      assert versions[i] in applied && Leq(versions[i].clock, versions[i].clock);
    }
    if Covers(applied, versions[i].clock) {
      var v :| v in applied && Leq(versions[i].clock, v.clock);
      var j :| 0 <= j < |versions| && versions[j] == v && !outcome(j).NotApplied?;
      assert i == j;
    }
  }
}
