/** A node's put, as its code performs it, is a run of the replication protocol. */
module PutRefinement {
  import opened Basics
  import opened VectorClocks
  import opened Antichains
  import opened Quorums
  import opened Replication
  import opened ReplicationInvariant
  import opened Continuations
  import opened HintStores
  import opened Gossip
  import opened Nodes
  import opened FlushRefinement

  /** What the network does to a put: which writes succeed, which of the failing ones
      were applied all the same, and which hints sent to another node are stored. */
  datatype Network = Network(ok: NodeId -> bool, applied: NodeId -> bool, stored: NodeId -> bool)

  /** A hint the coordinator keeps itself is always stored. */
  predicate HintStored(c: Config, p: NodeId, net: Network, t: NodeId) {
    c.spare == Some(p) || net.stored(t)
  }

  predicate Reaches(net: Network, t: NodeId) {
    net.ok(t) || net.applied(t)
  }

  predicate Parks(c: Config, p: NodeId, net: Network, t: NodeId) {
    c.spare.Some? && HintStored(c, p, net, t)
  }

  ghost predicate SameButOne(s: State, s': State, id: OpId)
    requires id in s.ops
  {
    && s'.ops.Keys == s.ops.Keys && s'.ops[id] == s.ops[id].(phase := s'.ops[id].phase)
    && forall o {:trigger s'.ops[o]} :: o in s.ops && o != id ==> s'.ops[o] == s.ops[o]
  }

  lemma {:induction false} SameButOneThen(s0: State, s1: State, s2: State, id: OpId)
    requires id in s0.ops && SameButOne(s0, s1, id) && SameButOne(s1, s2, id)
    ensures SameButOne(s0, s2, id)
  {}

  /** The losses recorded when hints for `targets` are sent. */
  ghost function Missed(c: Config, p: NodeId, net: Network, id: OpId, targets: set<NodeId>): set<(OpId, NodeId)> {
    set t | t in targets && !Parks(c, p, net, t) :: (id, t)
  }

  /** From `s` to `s'` only put `id` moved on: its version reached the replicas in
      `written`, and hints were sent for `targets`. */
  ghost predicate Spread(c: Config, net: Network, s: State, s': State, id: OpId, written: set<NodeId>,
                         targets: set<NodeId>) {
    && IsIssued(s, id) && IsIssued(s', id) && VersionOf(s', id) == VersionOf(s, id)
    && SameButOne(s, s', id) && s'.flush == s.flush
    && s'.lost == s.lost + Missed(c, s.ops[id].coordinator, net, id, targets)
    && (forall t {:trigger Rep(s', t)} ::
          Rep(s', t) == if t in written then Reconciled(Rep(s, t), VersionOf(s, id)) else Rep(s, t))
    && (forall t {:trigger Hints(s', t)} ::
          Hints(s', t) == if t in targets && Parks(c, s.ops[id].coordinator, net, t)
                          then Reconciled(Hints(s, t), VersionOf(s, id)) else Hints(s, t))
  }

  lemma {:induction false} ReconciledTwice(vs: seq<Version>, v: Version)
    ensures Reconciled(Reconciled(vs, v), v) == Reconciled(vs, v)
  {
    assert Leq(v.clock, v.clock);
    ReconciledCovers(vs, v, v.clock);
  }

  lemma {:induction false} ReconciledAgain(x0: seq<Version>, x1: seq<Version>, x2: seq<Version>, v: Version,
                                           first: bool, second: bool)
    requires x1 == if first then Reconciled(x0, v) else x0
    requires x2 == if second then Reconciled(x1, v) else x1
    ensures x2 == if first || second then Reconciled(x0, v) else x0
  {
    ReconciledTwice(x0, v);
  }

  lemma {:induction false} SpreadThen(c: Config, net: Network, s0: State, s1: State, s2: State, id: OpId,
                                      w1: set<NodeId>, t1: set<NodeId>, w2: set<NodeId>, t2: set<NodeId>)
    requires Spread(c, net, s0, s1, id, w1, t1) && Spread(c, net, s1, s2, id, w2, t2)
    ensures Spread(c, net, s0, s2, id, w1 + w2, t1 + t2)
  {
    var v, p := VersionOf(s0, id), s0.ops[id].coordinator;
    forall t
      ensures Rep(s2, t) == if t in w1 + w2 then Reconciled(Rep(s0, t), v) else Rep(s0, t)
    {
      ReconciledAgain(Rep(s0, t), Rep(s1, t), Rep(s2, t), v, t in w1, t in w2);
    }
    forall t
      ensures Hints(s2, t) == if t in t1 + t2 && Parks(c, p, net, t) then Reconciled(Hints(s0, t), v) else Hints(s0, t)
    {
      ReconciledAgain(Hints(s0, t), Hints(s1, t), Hints(s2, t), v,
                      t in t1 && Parks(c, p, net, t), t in t2 && Parks(c, p, net, t));
    }
    assert Missed(c, p, net, id, t1) + Missed(c, p, net, id, t2) == Missed(c, p, net, id, t1 + t2);
    assert SameButOne(s0, s1, id) && SameButOne(s1, s2, id);
    SameButOneThen(s0, s1, s2, id);
  }

  // ----- the hints of the replicas presumed down

  /** Only hints were sent in between, those before `todo`. */
  predicate HintsLeft(w: Writing, w': Writing, todo: seq<NodeId>) {
    w' == w.(todo := todo, hinted := w'.hinted)
  }

  lemma {:induction false} HintOne(c: Config, run: Run, id: OpId, net: Network) returns (next: Run)
    requires Legal(c, run) && IsIssued(Final(run), id)
    requires !WritingOf(Final(run), id).begun && WritingOf(Final(run), id).todo != []
    ensures Legal(c, next) && Extends(next, run)
    ensures var s := Final(run); var w := WritingOf(s, id);
            && Spread(c, net, s, Final(next), id, {}, {w.todo[0]})
            && HintsLeft(w, WritingOf(Final(next), id), w.todo[1..])
  {
    var s := Final(run);
    var p, t := s.ops[id].coordinator, WritingOf(s, id).todo[0];
    next := Take(c, run, HintDown(id, HintStored(c, p, net, t)));
    HintSent(c, s, id, t, net, WritingOf(s, id).(todo := WritingOf(s, id).todo[1..]));
  }

  /** Sending one hint, whatever the bookkeeping around it. */
  lemma {:induction false} HintSent(c: Config, s: State, id: OpId, t: NodeId, net: Network, w: Writing)
    requires IsIssued(s, id) && w.version == VersionOf(s, id)
    ensures var s' := SendHint(c, SetWriting(s, id, w), id, t, HintStored(c, s.ops[id].coordinator, net, t));
            && Spread(c, net, s, s', id, {}, {t})
            && WritingOf(s', id) == w.(hinted := WritingOf(s', id).hinted)
  {
    MissedOne(c, s.ops[id].coordinator, net, id, t);
  }

  lemma {:induction false} MissedOne(c: Config, p: NodeId, net: Network, id: OpId, t: NodeId)
    ensures Missed(c, p, net, id, {t}) == if Parks(c, p, net, t) then {} else {(id, t)}
    ensures Missed(c, p, net, id, {}) == {}
  {}

  lemma {:induction false} HintEach(c: Config, run: Run, id: OpId, net: Network) returns (next: Run)
    requires Legal(c, run) && IsIssued(Final(run), id) && !WritingOf(Final(run), id).begun
    ensures Legal(c, next) && Extends(next, run)
    ensures var s := Final(run); var w := WritingOf(s, id);
            && Spread(c, net, s, Final(next), id, {}, Elems(w.todo))
            && HintsLeft(w, WritingOf(Final(next), id), [])
    decreases |WritingOf(Final(run), id).todo|
  {
    var s := Final(run);
    var todo := WritingOf(s, id).todo;
    if todo == [] {
      next := run;
      MissedOne(c, s.ops[id].coordinator, net, id, "");
    } else {
      var half := HintOne(c, run, id, net);
      next := HintEach(c, half, id, net);
      ExtendsTransitive(run, half, next);
      SpreadThen(c, net, s, Final(half), Final(next), id, {}, {todo[0]}, {}, Elems(todo[1..]));
      assert todo == [todo[0]] + todo[1..];
      assert {todo[0]} + Elems(todo[1..]) == Elems(todo);
    }
  }

  // ----- the writes

  ghost function WrittenOf(net: Network, order: seq<NodeId>): set<NodeId> {
    set t | t in order && Reaches(net, t)
  }

  /** The put's bookkeeping after the writes of `done` finished in that order. */
  ghost predicate Counted(c: Config, w: Writing, net: Network, done: seq<NodeId>) {
    && w.begun && w.todo == [] && w.failing == {}
    && w.pending == w.live - Elems(done)
    && w.acks <= Elems(done)
    && |w.acks| == Min(WriteThreshold(c), |Successes(WriteOutcomes(done, net.ok))|)
  }

  lemma {:induction false} OutcomesNext(order: seq<NodeId>, ok: NodeId -> bool)
    requires order != []
    ensures var front, last := order[..|order| - 1], order[|order| - 1];
            |Successes(WriteOutcomes(order, ok))| == |Successes(WriteOutcomes(front, ok))| + if ok(last) then 1 else 0
  {
    var front := order[..|order| - 1];
    assert WriteOutcomes(order, ok)[..|order| - 1] == WriteOutcomes(front, ok);
  }

  /** A request reaches its replica, or is lost. */
  lemma {:induction false} WriteArrives(c: Config, run: Run, id: OpId, t: NodeId, net: Network) returns (next: Run)
    requires Legal(c, run) && IsIssued(Final(run), id)
    requires var w := WritingOf(Final(run), id); w.begun && t in w.live
    ensures Legal(c, next) && Extends(next, run)
    ensures Spread(c, net, Final(run), Final(next), id, if Reaches(net, t) then {t} else {}, {})
    ensures var w, w' := WritingOf(Final(run), id), WritingOf(Final(next), id);
            w' == w.(landed := if Reaches(net, t) then w.landed + {t} else w.landed)
  {
    next := run;
    if Reaches(net, t) {
      next := Take(c, run, WriteLands(id, t));
    }
    MissedOne(c, Final(run).ops[id].coordinator, net, id, t);
  }

  /** Changing nothing but the bookkeeping spreads nothing. */
  lemma {:induction false} Rewritten(c: Config, net: Network, s: State, id: OpId, w: Writing)
    requires IsIssued(s, id) && w.version == VersionOf(s, id)
    ensures Spread(c, net, s, SetWriting(s, id, w), id, {}, {})
  {
    MissedOne(c, s.ops[id].coordinator, net, id, "");
    forall t
      ensures Rep(SetWriting(s, id, w), t) == Rep(s, t) && Hints(SetWriting(s, id, w), t) == Hints(s, t)
    {}
  }

  /** The coordinator sees the write fail and sends its hint. */
  lemma {:induction false} RaiseAndHint(c: Config, run: Run, id: OpId, t: NodeId, net: Network) returns (next: Run)
    requires Legal(c, run) && IsIssued(Final(run), id)
    requires var w := WritingOf(Final(run), id); t in w.pending && w.failing == {}
    ensures Legal(c, next) && Extends(next, run)
    ensures Spread(c, net, Final(run), Final(next), id, {}, {t})
    ensures var w, w' := WritingOf(Final(run), id), WritingOf(Final(next), id);
            w' == w.(pending := w.pending - {t}, hinted := w'.hinted)
  {
    var s := Final(run);
    var w := WritingOf(s, id);
    var raised := w.(pending := w.pending - {t}, failing := {t});
    var failed := Take(c, run, WriteFails(id, t));
    assert w.failing + {t} == {t} && {t} - {t} == {};
    Rewritten(c, net, s, id, raised);
    HintSent(c, Final(failed), id, t, net, raised.(failing := {}));
    next := Take(c, failed, HintFailed(id, t, HintStored(c, s.ops[id].coordinator, net, t)));
    ExtendsTransitive(run, failed, next);
    SpreadThen(c, net, s, Final(failed), Final(next), id, {}, {}, {}, {t});
  }

  lemma {:induction false} CountedNext(c: Config, w: Writing, w': Writing, net: Network, done: seq<NodeId>, t: NodeId)
    requires Counted(c, w, net, done) && t !in done
    requires w'.begun && w'.todo == [] && w'.failing == {} && w'.live == w.live && w'.pending == w.pending - {t}
    requires w'.acks == if net.ok(t) && |w.acks| < WriteThreshold(c) then w.acks + {t} else w.acks
    ensures Counted(c, w', net, done + [t])
  {
    SuccessesNext(done, t, net.ok);
    ElemsAppend(done, t);
    assert t !in Elems(done) && t !in w.acks;
    assert |w.acks + {t}| == |w.acks| + 1;
  }

  lemma {:induction false} SuccessesNext(done: seq<NodeId>, t: NodeId, ok: NodeId -> bool)
    ensures |Successes(WriteOutcomes(done + [t], ok))| == |Successes(WriteOutcomes(done, ok))| + if ok(t) then 1 else 0
  {
    OutcomesNext(done + [t], ok);
    assert (done + [t])[..|done|] == done;
  }

  lemma {:induction false} WriteFinishes(c: Config, run: Run, id: OpId, net: Network, done: seq<NodeId>, t: NodeId)
    returns (next: Run)
    requires Legal(c, run) && IsIssued(Final(run), id)
    requires Counted(c, WritingOf(Final(run), id), net, done)
    requires t in WritingOf(Final(run), id).live && t !in done
    ensures Legal(c, next) && Extends(next, run)
    ensures Spread(c, net, Final(run), Final(next), id, if Reaches(net, t) then {t} else {}, if net.ok(t)
        then {} else {t})
    ensures Counted(c, WritingOf(Final(next), id), net, done + [t])
    ensures WritingOf(Final(next), id).live == WritingOf(Final(run), id).live
  {
    assert t !in Elems(done);
    var arrived := WriteArrives(c, run, id, t, net);
    if net.ok(t) {
      next := Take(c, arrived, WriteOk(id, t));
      Rewritten(c, net, Final(arrived), id, WritingOf(Final(next), id));
    } else {
      next := RaiseAndHint(c, arrived, id, t, net);
    }
    ExtendsTransitive(run, arrived, next);
    SpreadThen(c, net, Final(run), Final(arrived), Final(next), id,
               if Reaches(net, t) then {t} else {}, {}, {}, if net.ok(t) then {} else {t});
    CountedNext(c, WritingOf(Final(run), id), WritingOf(Final(next), id), net, done, t);
  }

  lemma {:induction false} WritesFinish(c: Config, run: Run, id: OpId, net: Network, order: seq<NodeId>)
    returns (next: Run)
    requires Legal(c, run) && IsIssued(Final(run), id) && Distinct(order)
    requires Counted(c, WritingOf(Final(run), id), net, []) && Elems(order) <= WritingOf(Final(run), id).live
    ensures Legal(c, next) && Extends(next, run)
    ensures Spread(c, net, Final(run), Final(next), id, WrittenOf(net, order), Elems(Failed(order, net.ok)))
    ensures Counted(c, WritingOf(Final(next), id), net, order)
    ensures WritingOf(Final(next), id).live == WritingOf(Final(run), id).live
  {
    var s := Final(run);
    if order == [] {
      next := run;
      assert WrittenOf(net, []) == {};
      MissedOne(c, s.ops[id].coordinator, net, id, "");
    } else {
      var front, last := order[..|order| - 1], order[|order| - 1];
      assert order == front + [last] && last in Elems(order);
      ElemsAppend(front, last);
      var half := WritesFinish(c, run, id, net, front);
      next := WriteFinishes(c, half, id, net, front, last);
      ExtendsTransitive(run, half, next);
      SpreadThen(c, net, s, Final(half), Final(next), id, WrittenOf(net, front), Elems(Failed(front, net.ok)),
                 if Reaches(net, last) then {last} else {}, if net.ok(last) then {} else {last});
      SpreadSets(net, order);
    }
  }

  lemma {:induction false} SpreadSets(net: Network, order: seq<NodeId>)
    requires order != []
    ensures var front, last := order[..|order| - 1], order[|order| - 1];
            && WrittenOf(net, order) == WrittenOf(net, front) + (if Reaches(net, last) then {last} else {})
            && Elems(Failed(order, net.ok)) == Elems(Failed(front, net.ok)) + (if net.ok(last) then {} else {last})
  {
    var front, last := order[..|order| - 1], order[|order| - 1];
    assert order == front + [last];
    FailedMembers(order, net.ok);
    FailedMembers(front, net.ok);
  }

  // ----- the whole put

  /** The state a put leaves behind: its version, who stored it, for whom it is parked
      or lost, whether it was acknowledged; and nothing of it is still to happen. */
  ghost predicate PutLeaves(c: Config, s: State, s': State, id: OpId, v: Version, net: Network, order: seq<NodeId>,
                            targets: seq<NodeId>)
  {
    && IsIssued(s', id) && VersionOf(s', id) == v
    && s'.ops.Keys == s.ops.Keys + {id} && (forall o {:trigger s'.ops[o]} :: o in s.ops && o != id ==>
         s'.ops[o] == s.ops[o])
    && NothingOutstanding(s', id)
    && (IsAcked(c, s', id) <==> |Successes(WriteOutcomes(order, net.ok))| >= WriteThreshold(c))
    && s'.flush == s.flush
    && s'.lost == s.lost + Missed(c, s'.ops[id].coordinator, net, id, Elems(targets))
    && (forall t {:trigger Rep(s', t)} ::
          Rep(s', t) == if t in order && Reaches(net, t) then Reconciled(Rep(s, t), v) else Rep(s, t))
    && (forall t {:trigger Hints(s', t)} ::
          Hints(s', t) == if t in targets && Parks(c, s'.ops[id].coordinator, net, t)
              then Reconciled(Hints(s, t), v) else Hints(s, t))
  }

  /** The hints are sent and the writes submitted. */
  lemma {:induction false} PutBegins(c: Config, run: Run, id: OpId, net: Network) returns (next: Run)
    requires Legal(c, run) && IsIssued(Final(run), id)
    requires var w := WritingOf(Final(run), id); !w.begun && w.failing == {} && w.acks == {}
    ensures Legal(c, next) && Extends(next, run)
    ensures Spread(c, net, Final(run), Final(next), id, {}, Elems(WritingOf(Final(run), id).todo))
    ensures Counted(c, WritingOf(Final(next), id), net, [])
    ensures WritingOf(Final(next), id).live == WritingOf(Final(run), id).live
  {
    var s := Final(run);
    var hinted := HintEach(c, run, id, net);
    next := Take(c, hinted, BeginWrites(id));
    Rewritten(c, net, Final(hinted), id, WritingOf(Final(next), id));
    assert WriteOutcomes([], net.ok) == [];
    var targets := Elems(WritingOf(s, id).todo);
    SpreadThen(c, net, s, Final(hinted), Final(next), id, {}, targets, {}, {});
    assert targets + {} == targets;
    ExtendsTransitive(run, hinted, next);
  }

  /** The writes of an issued put that has nobody's outcome yet, hints first. */
  lemma {:induction false} PutSpreads(c: Config, run: Run, id: OpId, net: Network, order: seq<NodeId>)
    returns (next: Run)
    requires Legal(c, run) && IsIssued(Final(run), id) && Distinct(order)
    requires var w := WritingOf(Final(run), id);
             !w.begun && w.failing == {} && w.acks == {} && w.live == Elems(order)
    ensures Legal(c, next) && Extends(next, run)
    ensures Spread(c, net, Final(run), Final(next), id, WrittenOf(net, order),
                   Elems(WritingOf(Final(run), id).todo + Failed(order, net.ok)))
    ensures Counted(c, WritingOf(Final(next), id), net, order) && WritingOf(Final(next), id).live == Elems(order)
  {
    var s := Final(run);
    var todo, failed := WritingOf(s, id).todo, Failed(order, net.ok);
    var begun := PutBegins(c, run, id, net);
    next := WritesFinish(c, begun, id, net, order);
    SpreadThen(c, net, s, Final(begun), Final(next), id, {}, Elems(todo), WrittenOf(net, order), Elems(failed));
    assert {} + WrittenOf(net, order) == WrittenOf(net, order);
    assert Elems(todo) + Elems(failed) == Elems(todo + failed);
    ExtendsTransitive(run, begun, next);
  }

  /** Once a put has its read quorum, whatever the network does is a run of the protocol. */
  lemma {:induction false} PutWrites(c: Config, run: Run, id: OpId, down: set<NodeId>, net: Network, order: seq<NodeId>)
    returns (later: Run)
    requires Legal(c, run) && id in Final(run).ops
    requires var op := Final(run).ops[id];
             op.phase.Reading? && op.value.Some? && |op.collected| == ReadThreshold(c) && op.coordinator !in down
    requires down <= Elems(c.prefs) && Distinct(order) && Elems(order) == Elems(c.prefs) - down
    ensures Legal(c, later) && Extends(later, run)
    ensures var s, s' := Final(run), Final(later); var op := s.ops[id];
            && PutLeaves(c, s, s', id, NextVersion(op.coordinator, op.value.value, Replies(op)), net, order,
                         KeepIn(c.prefs, down) + Failed(order, net.ok))
            && s'.ops[id] == op.(phase := s'.ops[id].phase)
  {
    var s := Final(run);
    var issued := Take(c, run, Issue(id, down));
    later := PutSpreads(c, issued, id, net, order);
    ExtendsTransitive(run, issued, later);
    SpreadLeaves(c, s, Final(issued), Final(later), id, net, order, KeepIn(c.prefs, down) + Failed(order, net.ok));
  }

  lemma {:induction false} SpreadLeaves(c: Config, s: State, s1: State, s': State, id: OpId, net: Network,
                                        order: seq<NodeId>, targets: seq<NodeId>)
    requires IsIssued(s1, id) && s1 == SetOp(s, id, s1.ops[id])
    requires Spread(c, net, s1, s', id, WrittenOf(net, order), Elems(targets))
    requires Counted(c, WritingOf(s', id), net, order) && WritingOf(s', id).live == Elems(order)
    ensures PutLeaves(c, s, s', id, VersionOf(s1, id), net, order, targets)
  {
    forall t
      ensures Rep(s1, t) == Rep(s, t) && Hints(s1, t) == Hints(s, t)
    {}
    assert WritingOf(s', id).pending == {};
  }

  /** Reading changes neither replicas nor hints. */
  lemma {:induction false} LeavesFrom(c: Config, s: State, s1: State, s': State, id: OpId, v: Version, net: Network,
                                      order: seq<NodeId>, targets: seq<NodeId>)
    requires id in s1.ops && s1 == SetOp(s, id, s1.ops[id])
    requires PutLeaves(c, s1, s', id, v, net, order, targets)
    ensures PutLeaves(c, s, s', id, v, net, order, targets)
  {
    forall t
      ensures Rep(s1, t) == Rep(s, t) && Hints(s1, t) == Hints(s, t)
    {}
  }

  /** From any reachable state, a put whose read quorum answers is a run of the protocol. */
  lemma {:induction false} PutRuns(c: Config, run: Run, id: OpId, p: NodeId, value: Value, readers: seq<NodeId>,
                                   down: set<NodeId>, net: Network, order: seq<NodeId>) returns (later: Run)
    requires Legal(c, run) && id !in Final(run).ops
    requires Distinct(readers) && Elems(readers) <= Elems(c.prefs) && |readers| == ReadThreshold(c)
    requires down <= Elems(c.prefs) && p !in down
    requires Distinct(order) && Elems(order) == Elems(c.prefs) - down
    ensures Legal(c, later) && Extends(later, run)
    ensures var s, s' := Final(run), Final(later);
            && id in s'.ops && s'.ops[id].coordinator == p && Replies(s'.ops[id]) == Replied(s, readers)
            && PutLeaves(c, s, s', id, NextVersion(p, value, Replied(s, readers)), net, order,
                         KeepIn(c.prefs, down) + Failed(order, net.ok))
  {
    var s := Final(run);
    var read := ReadBy(c, run, id, p, Some(value), readers);
    later := PutWrites(c, read, id, down, net, order);
    ExtendsTransitive(run, read, later);
    LeavesFrom(c, s, Final(read), Final(later), id, NextVersion(p, value, Replied(s, readers)), net, order,
               KeepIn(c.prefs, down) + Failed(order, net.ok));
  }

  /** A put that misses its read quorum is one as well, and changes nothing. */
  lemma {:induction false} PutAborts(c: Config, run: Run, id: OpId, p: NodeId, value: Value, readers: seq<NodeId>)
    returns (later: Run)
    requires Legal(c, run) && id !in Final(run).ops
    requires Distinct(readers) && Elems(readers) <= Elems(c.prefs) && |readers| < ReadThreshold(c)
    ensures Legal(c, later) && Extends(later, run)
    ensures var s, s' := Final(run), Final(later);
            && id in s'.ops && s'.ops[id].phase.Aborted?
            && s'.replicas == s.replicas && s'.hints == s.hints && s'.flush == s.flush
            && s'.ops.Keys == s.ops.Keys + {id} && forall o :: o in s.ops ==> s'.ops[o] == s.ops[o]
  {
    var read := ReadBy(c, run, id, p, Some(value), readers);
    later := Take(c, read, AbortRead(id));
    ExtendsTransitive(run, read, later);
  }

  // ----- a network that reaches some replicas

  /** Writes to the given replicas succeed, others fail unapplied, hints are stored. */
  function Reaching(nodes: set<NodeId>): Network {
    Network(t => t in nodes, t => false, t => true)
  }

  lemma {:induction false} SuccessCount(order: seq<NodeId>, nodes: set<NodeId>)
    requires Distinct(order)
    ensures |Successes(WriteOutcomes(order, Reaching(nodes).ok))| == |Elems(order) * nodes|
  {
    if order == [] {
      assert Elems(order) * nodes == {};
    } else {
      var front, last := order[..|order| - 1], order[|order| - 1];
      assert order == front + [last] && last !in front;
      SuccessCount(front, nodes);
      OutcomesNext(order, Reaching(nodes).ok);
      ElemsAppend(front, last);
      assert last !in Elems(front);
      CommonNext(Elems(front), nodes, last);
      assert Elems(order) == Elems(front) + {last};
      assert Reaching(nodes).ok(last) <==> last in nodes;
    }
  }

  lemma {:induction false} CommonNext(all: set<NodeId>, nodes: set<NodeId>, last: NodeId)
    requires last !in all
    ensures |(all + {last}) * nodes| == |all * nodes| + if last in nodes then 1 else 0
  {
    if last in nodes {
      assert (all + {last}) * nodes == all * nodes + {last};
    } else {
      assert (all + {last}) * nodes == all * nodes;
    }
  }

  // ----- the code

  /** The answers are those of the replicas `from`, in completion order: a success
      carries the replica's versions. */
  ghost predicate AnsweredFrom(c: Config, s: State, from: seq<NodeId>, answers: seq<Outcome<seq<Version>>>) {
    && |from| == |answers| && Distinct(from) && Elems(from) <= Elems(c.prefs)
    && forall i {:trigger answers[i]} :: 0 <= i < |answers| && answers[i].Success? ==>
         answers[i].value == Rep(s, from[i])
  }

  /** The replicas that answered with success, in order. */
  function Responders(from: seq<NodeId>, answers: seq<Outcome<seq<Version>>>): seq<NodeId>
    requires |from| == |answers|
  {
    if from == [] then []
    else
      var last := |from| - 1;
      var rest := Responders(from[..last], answers[..last]);
      if answers[last].Success? then rest + [from[last]] else rest
  }

  lemma {:induction false} RespondersFrom(from: seq<NodeId>, answers: seq<Outcome<seq<Version>>>)
    requires |from| == |answers| && Distinct(from)
    ensures Distinct(Responders(from, answers)) && forall t :: t in Responders(from, answers) ==> t in from
  {
    if from != [] {
      var last := |from| - 1;
      RespondersFrom(from[..last], answers[..last]);
      assert from == from[..last] + [from[last]];
      assert from[last] !in from[..last];
    }
  }

  lemma {:induction false} RespondersReplied(c: Config, s: State, from: seq<NodeId>,
                                             answers: seq<Outcome<seq<Version>>>)
    requires AnsweredFrom(c, s, from, answers)
    ensures Successes(answers) == Replied(s, Responders(from, answers))
  {
    if from != [] {
      var last := |from| - 1;
      assert forall t :: t in from[..last] ==> t in from;
      assert Elems(from[..last]) <= Elems(from);
      assert forall i :: 0 <= i < last ==> answers[..last][i] == answers[i] && from[..last][i] == from[i];
      RespondersReplied(c, s, from[..last], answers[..last]);
    } else {
      assert answers == [];
    }
  }

  /** The readers whose replies the code keeps. */
  lemma {:induction false} TakenReplied(c: Config, s: State, from: seq<NodeId>, answers: seq<Outcome<seq<Version>>>)
    returns (readers: seq<NodeId>)
    requires AnsweredFrom(c, s, from, answers) && ReadThreshold(c) >= 1
    ensures Distinct(readers) && Elems(readers) <= Elems(c.prefs) && |readers| <= ReadThreshold(c)
    ensures Taken(answers, ReadThreshold(c)) == Replied(s, readers)
  {
    RespondersFrom(from, answers);
    RespondersReplied(c, s, from, answers);
    var all := Responders(from, answers);
    readers := all[..Min(|all|, ReadThreshold(c))];
    forall t | t in readers
      ensures t in Elems(c.prefs)
    {
      assert t in all && t in Elems(from);
    }
  }

  lemma {:induction false} ParkedForEffect(store: Store, targets: seq<NodeId>, key: Key, v: Version, t: NodeId)
    ensures Pending(ParkedFor(store, targets, key, v), t, key) ==
            if t in targets then Reconciled(Pending(store, t, key), v) else Pending(store, t, key)
  {
    if targets != [] {
      var front, last := targets[..|targets| - 1], targets[|targets| - 1];
      assert targets == front + [last];
      ParkedForEffect(store, front, key, v, t);
      AddedEffect(ParkedFor(store, front, key, v), last, key, v, t, key);
      ReconciledTwice(Pending(store, t, key), v);
    }
  }

  lemma {:induction false} DistinctCounts(s: seq<NodeId>)
    ensures Distinct(s) <==> forall t :: multiset(s)[t] <= 1
  {
    if s != [] {
      var front, last := s[..|s| - 1], s[|s| - 1];
      assert s == front + [last];
      DistinctCounts(front);
      assert last in front <==> multiset(front)[last] >= 1;
      assert Distinct(s) <==> Distinct(front) && last !in front;
      assert forall t :: multiset(s)[t] == multiset(front)[t] + if t == last then 1 else 0;
    }
  }

  lemma {:induction false} OrderIsLive(prefs: seq<NodeId>, down: set<NodeId>, order: seq<NodeId>)
    requires Distinct(prefs) && multiset(order) == multiset(KeepIn(prefs, Elems(prefs) - down))
    ensures Distinct(order) && Elems(order) == Elems(prefs) - down
  {
    var live := KeepIn(prefs, Elems(prefs) - down);
    KeepInDistinct(prefs, Elems(prefs) - down);
    KeepInMembers(prefs, Elems(prefs) - down);
    DistinctCounts(live);
    DistinctCounts(order);
    forall t
      ensures t in Elems(order) <==> t in Elems(prefs) - down
    {
      assert t in order <==> t in multiset(order);
      assert t in live <==> t in multiset(live);
    }
  }

  /** The node's own part of what a put leaves behind. */
  lemma {:induction false} LocalPart(c: Config, s: State, s': State, node: NodeId, storage: Blob, store: Store,
                                     id: OpId, key: Key, v: Version,
                                     net: Network, order: seq<NodeId>, hinted: seq<NodeId>)
    requires PutLeaves(c, s, s', id, v, net, order, hinted) && s'.ops[id].coordinator == node && net.ok(node)
    requires Local(storage, key) == Rep(s, node)
    requires c.spare == Some(node) ==> forall t {:trigger Hints(s, t)} :: Hints(s, t) == Pending(store, t, key)
    ensures Local(if node in order then Stored(storage, key, v) else storage, key) == Rep(s', node)
    ensures c.spare == Some(node) ==>
              forall t {:trigger Hints(s', t)} :: Hints(s', t) == Pending(ParkedFor(store, hinted, key, v), t, key)
  {
    if c.spare == Some(node) {
      forall t
        ensures Hints(s', t) == Pending(ParkedFor(store, hinted, key, v), t, key)
      {
        ParkedForEffect(store, hinted, key, v, t);
        assert Hints(s, t) == Pending(store, t, key);
      }
    }
  }

  lemma {:induction false} SameHints(s: State, s': State, store: Store, key: Key)
    requires s'.hints == s.hints
    requires forall t {:trigger Hints(s, t)} :: Hints(s, t) == Pending(store, t, key)
    ensures forall t {:trigger Hints(s', t)} :: Hints(s', t) == Pending(store, t, key)
  {
    forall t
      ensures Hints(s', t) == Pending(store, t, key)
    {
      assert Hints(s', t) == Hints(s, t);
    }
  }

  /** The code's put is a run of the protocol that ends in the state the code leaves and
      in the answer the code gives. */
  method PutIsRun(node: Node, key: Key, value: Value, prefs: seq<NodeId>, holder: Option<NodeId>, from: seq<NodeId>,
                  answers: seq<Outcome<seq<Version>>>, order: seq<NodeId>, net: Network, now: real, ghost c: Config,
                      ghost run: Run)
    returns (result: PutResult, hinted: seq<NodeId>, ghost id: OpId, ghost later: Run)
    requires node.Valid() && ValidConfig(c) && c.prefs == prefs && c.spare == holder && c.r == node.r && c.w == node.w
    requires Legal(c, run) && Represents(c, Final(run), node, key)
    requires AnsweredFrom(c, Final(run), from, answers)
    requires multiset(order) ==
             multiset(KeepIn(prefs, Elems(prefs) - DownNow(prefs, node.gossip.table, node.nodeId, now, node.timeout)))
    requires net.ok(node.nodeId)
    modifies node, node.hintStore
    ensures Legal(c, later) && Extends(later, run) && id !in Final(run).ops && id in Final(later).ops
    ensures Represents(c, Final(later), node, key)
    ensures result.ReadUnavailable? ==> Final(later).ops[id].phase.Aborted?
    ensures !result.ReadUnavailable? ==>
              && PutLeaves(c, Final(run), Final(later), id, result.version, net, order,
                           KeepIn(prefs, DownNow(prefs, node.gossip.table, node.nodeId, now, node.timeout))
                               + Failed(order, net.ok))
              && (result.Written? <==> IsAcked(c, Final(later), id))
  {
    id := FreshId(Final(run).ops.Keys);
    ghost var readers := TakenReplied(c, Final(run), from, answers);
    ghost var down := DownNow(prefs, node.gossip.table, node.nodeId, now, node.timeout);
    ghost var storage, store := node.storage, node.hintStore.storage;
    OrderIsLive(prefs, down, order);
    result, hinted := node.Put(key, value, prefs, holder, answers, order, net.ok, now);
    if result.ReadUnavailable? {
      later := PutAborts(c, run, id, node.nodeId, value, readers);
      if c.spare == Some(node.nodeId) {
        SameHints(Final(run), Final(later), store, key);
      }
    } else {
      later := PutRuns(c, run, id, node.nodeId, value, readers, down, net, order);
      LocalPart(c, Final(run), Final(later), node.nodeId, storage, store, id, key, result.version, net, order,
                KeepIn(prefs, down) + Failed(order, net.ok));
    }
  }
}
