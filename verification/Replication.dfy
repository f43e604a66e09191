/** The replicas of one key as a step-based distributed system.

    Every interleaving of coordinators, replicas, the hint holder and the network
    is a sequence of steps. A request that was sent may take effect at any later
    time, any number of times, or never; replies and errors reach the coordinator
    in any order. Keys do not interact, so one key is modelled. */
module Replication {
  import opened Basics
  import opened VectorClocks
  import opened Antichains
  import opened Quorums

  type OpId = nat

  /** `prefs` is the key's replica list, `spare` the hint holder beyond it, if any. */
  datatype Config = Config(prefs: seq<NodeId>, spare: Option<NodeId>, n: nat, r: nat, w: nat)

  ghost predicate ValidConfig(c: Config) {
    && Distinct(c.prefs) && 1 <= |c.prefs| <= c.n
    && 1 <= c.r && 1 <= c.w
    && (c.spare.Some? ==> c.spare.value !in c.prefs)
  }

  /** Read and write quorums overlap. For a list of N replicas this is R + W > N; a
      cluster of fewer nodes needs less. */
  predicate Overlapping(c: Config) {
    c.r + c.w > |c.prefs|
  }

  function ReadThreshold(c: Config): nat {
    Threshold(c.r, |c.prefs|)
  }

  function WriteThreshold(c: Config): nat {
    Threshold(c.w, |c.prefs|)
  }

  /** A put after it has built its version. */
  datatype Writing = Writing(
    version: Version,
    todo: seq<NodeId>,     // presumed-down replicas whose hint is still to be sent
    live: set<NodeId>,     // replicas the write goes to
    begun: bool,           // the hints are done and the writes submitted
    pending: set<NodeId>,  // writes without an outcome yet
    landed: set<NodeId>,   // replicas that applied the write
    failing: set<NodeId>,  // writes that raised and whose hint is still to be sent
    hinted: set<NodeId>,   // replicas for which a hint request was sent
    acks: set<NodeId>)     // successes the quorum loop has counted

  datatype Phase = Reading | Aborted | Issued(writing: Writing)

  /** A put carries a value, a get does not. `ackedBefore` records which puts were
      acknowledged when the operation started, for the properties only. */
  datatype Op = Op(
    value: Option<Value>,
    coordinator: NodeId,
    ackedBefore: set<OpId>,
    served: map<NodeId, seq<Version>>,  // replies produced by replicas
    collected: seq<NodeId>,             // replies counted, in arrival order
    phase: Phase)

  /** A hint flush in progress: the target, the hints left of the snapshot it took,
      and whether the first of them has taken effect. */
  datatype Flush = Flush(target: NodeId, todo: seq<Version>, landed: bool)

  datatype State = State(
    replicas: map<NodeId, seq<Version>>,
    hints: map<NodeId, seq<Version>>,
    ops: map<OpId, Op>,
    flush: Option<Flush>,
    flushSent: set<(NodeId, Version)>,
    lost: set<(OpId, NodeId)>)

  function Rep(s: State, t: NodeId): seq<Version> {
    if t in s.replicas then s.replicas[t] else []
  }

  function Hints(s: State, t: NodeId): seq<Version> {
    if t in s.hints then s.hints[t] else []
  }

  predicate IsIssued(s: State, o: OpId) {
    o in s.ops && s.ops[o].phase.Issued?
  }

  function WritingOf(s: State, o: OpId): Writing
    requires IsIssued(s, o)
  {
    s.ops[o].phase.writing
  }

  function VersionOf(s: State, o: OpId): Version
    requires IsIssued(s, o)
  {
    WritingOf(s, o).version
  }

  function ClockOf(s: State, o: OpId): Clock
    requires IsIssued(s, o)
  {
    VersionOf(s, o).clock
  }

  /** The put has returned to its client; later outcomes are discarded. */
  predicate IsAcked(c: Config, s: State, o: OpId) {
    IsIssued(s, o) && |WritingOf(s, o).acks| >= WriteThreshold(c)
  }

  function AckedOps(c: Config, s: State): set<OpId> {
    set o | o in s.ops && IsAcked(c, s, o)
  }

  function Reply(served: map<NodeId, seq<Version>>, t: NodeId): seq<Version> {
    if t in served then served[t] else []
  }

  /** The collected replies, in arrival order. */
  function RepliesFrom(served: map<NodeId, seq<Version>>, collected: seq<NodeId>): seq<seq<Version>> {
    seq(|collected|, i requires 0 <= i < |collected| => Reply(served, collected[i]))
  }

  function Replies(op: Op): seq<seq<Version>> {
    RepliesFrom(op.served, op.collected)
  }

  /** The read of this operation reached its quorum; its merged result is fixed. */
  predicate ReadDone(c: Config, op: Op) {
    |op.collected| >= ReadThreshold(c)
  }

  function ReadResult(op: Op): seq<Version> {
    MergedReplies(Replies(op))
  }

  datatype Step =
    | StartPut(id: OpId, coordinator: NodeId, value: Value)
    | StartGet(id: OpId, coordinator: NodeId)
    | ServeRead(id: OpId, t: NodeId)
    | CollectRead(id: OpId, t: NodeId)
    | AbortRead(id: OpId)
    | Issue(id: OpId, down: set<NodeId>)
    | HintDown(id: OpId, stored: bool)
    | BeginWrites(id: OpId)
    | WriteLands(id: OpId, t: NodeId)
    | WriteOk(id: OpId, t: NodeId)
    | WriteFails(id: OpId, t: NodeId)
    | HintFailed(id: OpId, t: NodeId, stored: bool)
    | HintLands(id: OpId, t: NodeId)
    | FlushStart(t: NodeId)
    | FlushLands(t: NodeId, version: Version)
    | FlushOk
    | FlushFails

  /** A hint the coordinator holds itself cannot fail. */
  predicate HintOutcome(c: Config, op: Op, stored: bool) {
    c.spare == Some(op.coordinator) ==> stored
  }

  predicate Enabled(c: Config, s: State, step: Step) {
    match step
    case StartPut(id, _, _) => id !in s.ops
    case StartGet(id, _) => id !in s.ops
    case ServeRead(id, t) =>
      id in s.ops && s.ops[id].phase.Reading? && t in c.prefs && t !in s.ops[id].served
    case CollectRead(id, t) =>
      && id in s.ops && s.ops[id].phase.Reading?
      && t in s.ops[id].served && t !in s.ops[id].collected && |s.ops[id].collected| < ReadThreshold(c)
    case AbortRead(id) =>
      id in s.ops && s.ops[id].phase.Reading? && |s.ops[id].collected| < ReadThreshold(c)
    case Issue(id, down) =>
      && id in s.ops && s.ops[id].phase.Reading? && s.ops[id].value.Some?
      && |s.ops[id].collected| == ReadThreshold(c)
      && down <= Elems(c.prefs) && s.ops[id].coordinator !in down
    case HintDown(id, stored) =>
      IsIssued(s, id) && !WritingOf(s, id).begun && WritingOf(s, id).todo != [] && HintOutcome(c, s.ops[id], stored)
    case BeginWrites(id) =>
      IsIssued(s, id) && !WritingOf(s, id).begun && WritingOf(s, id).todo == []
    case WriteLands(id, t) =>
      IsIssued(s, id) && WritingOf(s, id).begun && t in WritingOf(s, id).live
    case WriteOk(id, t) =>
      IsIssued(s, id) && t in WritingOf(s, id).pending && t in WritingOf(s, id).landed
    case WriteFails(id, t) =>
      IsIssued(s, id) && t in WritingOf(s, id).pending
    case HintFailed(id, t, stored) =>
      IsIssued(s, id) && t in WritingOf(s, id).failing && HintOutcome(c, s.ops[id], stored)
    case HintLands(id, t) =>
      IsIssued(s, id) && t in WritingOf(s, id).hinted
    case FlushStart(t) => c.spare.Some? && s.flush.None? && Hints(s, t) != []
    case FlushLands(t, version) => (t, version) in s.flushSent
    case FlushOk => s.flush.Some? && s.flush.value.todo != [] && s.flush.value.landed
    case FlushFails => s.flush.Some? && s.flush.value.todo != []
  }

  function SetOp(s: State, id: OpId, op: Op): State {
    s.(ops := s.ops[id := op])
  }

  function SetWriting(s: State, id: OpId, w: Writing): State
    requires id in s.ops
  {
    SetOp(s, id, s.ops[id].(phase := Issued(w)))
  }

  /** `put_local` as one atomic step. */
  function StoreAt(s: State, t: NodeId, v: Version): State {
    s.(replicas := s.replicas[t := Reconciled(Rep(s, t), v)])
  }

  function ParkAt(s: State, t: NodeId, v: Version): State {
    s.(hints := s.hints[t := Reconciled(Hints(s, t), v)])
  }

  /** `_deliver_hint`: no spare node and a failed request are the two ways to lose it. */
  function SendHint(c: Config, s: State, id: OpId, t: NodeId, stored: bool): State
    requires IsIssued(s, id)
  {
    var w := WritingOf(s, id);
    var kept := c.spare.Some? && stored;
    var remote := c.spare.Some? && c.spare.value != s.ops[id].coordinator;
    s.(ops := if remote then s.ops[id := s.ops[id].(phase := Issued(w.(hinted := w.hinted + {t})))] else s.ops,
       hints := if kept then s.hints[t := Reconciled(Hints(s, t), w.version)] else s.hints,
       lost := if kept then s.lost else s.lost + {(id, t)})
  }

  /** Puts whose version only the hints about to be cleared still held for `t`. */
  function DroppedByClear(s: State, t: NodeId): set<(OpId, NodeId)> {
    set o | o in s.ops && IsIssued(s, o)
      && CoveredIn(Hints(s, t), ClockOf(s, o)) && !CoveredIn(Rep(s, t), ClockOf(s, o)) :: (o, t)
  }

  predicate CoveredIn(vs: seq<Version>, clock: Clock)
    ensures CoveredIn(vs, clock) <==> Covers(vs, clock)
  {
    exists v | v in vs :: DominatesOrEqual(v.clock, clock)
  }

  /** On to the next hint of the snapshot. */
  function NextFlush(s: State): State
    requires s.flush.Some? && s.flush.value.todo != []
  {
    var f := s.flush.value;
    var more := |f.todo| > 1;
    s.(flush := if more then Some(Flush(f.target, f.todo[1..], false)) else None,
       flushSent := if more then s.flushSent + {(f.target, f.todo[1])} else s.flushSent)
  }

  function KeepIn(nodes: seq<NodeId>, keep: set<NodeId>): seq<NodeId> {
    if nodes == [] then []
    else
      var rest := KeepIn(nodes[..|nodes| - 1], keep);
      if nodes[|nodes| - 1] in keep then rest + [nodes[|nodes| - 1]] else rest
  }

  lemma {:induction false} KeepInMembers(nodes: seq<NodeId>, keep: set<NodeId>)
    ensures forall t :: t in KeepIn(nodes, keep) <==> t in nodes && t in keep
  {
    if nodes != [] {
      KeepInMembers(nodes[..|nodes| - 1], keep);
      assert nodes == nodes[..|nodes| - 1] + [nodes[|nodes| - 1]];
    }
  }

  /** The nodes are taken one by one, in order. */
  lemma {:induction false} KeepInConcat(a: seq<NodeId>, b: seq<NodeId>, keep: set<NodeId>)
    ensures KeepIn(a + b, keep) == KeepIn(a, keep) + KeepIn(b, keep)
  {
    if b == [] {
      assert a + b == a;
    } else {
      KeepInConcat(a, b[..|b| - 1], keep);
      assert (a + b)[..|a + b| - 1] == a + b[..|b| - 1];
    }
  }

  lemma {:induction false} KeepInDistinct(nodes: seq<NodeId>, keep: set<NodeId>)
    requires Distinct(nodes)
    ensures Distinct(KeepIn(nodes, keep))
  {
    if nodes != [] {
      var front, last := nodes[..|nodes| - 1], nodes[|nodes| - 1];
      KeepInDistinct(front, keep);
      KeepInMembers(front, keep);
      assert last !in KeepIn(front, keep);
    }
  }

  function Apply(c: Config, s: State, step: Step): State
    requires Enabled(c, s, step)
  {
    match step
    case StartPut(id, coordinator, value) =>
      SetOp(s, id, Op(Some(value), coordinator, AckedOps(c, s), map[], [], Reading))
    case StartGet(id, coordinator) =>
      SetOp(s, id, Op(None, coordinator, AckedOps(c, s), map[], [], Reading))
    case ServeRead(id, t) =>
      SetOp(s, id, s.ops[id].(served := s.ops[id].served[t := Rep(s, t)]))
    case CollectRead(id, t) =>
      SetOp(s, id, s.ops[id].(collected := s.ops[id].collected + [t]))
    case AbortRead(id) =>
      SetOp(s, id, s.ops[id].(phase := Aborted))
    case Issue(id, down) =>
      var op := s.ops[id];
      var version := NextVersion(op.coordinator, op.value.value, Replies(op));
      SetWriting(s, id, Writing(version, KeepIn(c.prefs, down), Elems(c.prefs) - down, false, {}, {}, {}, {}, {}))
    case HintDown(id, stored) =>
      var w := WritingOf(s, id);
      SendHint(c, SetWriting(s, id, w.(todo := w.todo[1..])), id, w.todo[0], stored)
    case BeginWrites(id) =>
      var w := WritingOf(s, id);
      SetWriting(s, id, w.(begun := true, pending := w.live))
    case WriteLands(id, t) =>
      var w := WritingOf(s, id);
      StoreAt(SetWriting(s, id, w.(landed := w.landed + {t})), t, w.version)
    case WriteOk(id, t) =>
      var w := WritingOf(s, id);
      var counted := if |w.acks| >= WriteThreshold(c) then w.acks else w.acks + {t};
      SetWriting(s, id, w.(pending := w.pending - {t}, acks := counted))
    case WriteFails(id, t) =>
      var w := WritingOf(s, id);
      SetWriting(s, id, w.(pending := w.pending - {t}, failing := w.failing + {t}))
    case HintFailed(id, t, stored) =>
      var w := WritingOf(s, id);
      SendHint(c, SetWriting(s, id, w.(failing := w.failing - {t})), id, t, stored)
    case HintLands(id, t) =>
      ParkAt(s, t, VersionOf(s, id))
    case FlushStart(t) =>
      s.(flush := Some(Flush(t, Hints(s, t), false)), flushSent := s.flushSent + {(t, Hints(s, t)[0])})
    case FlushLands(t, version) =>
      var current := s.flush.Some? && s.flush.value.target == t && s.flush.value.todo != []
          && s.flush.value.todo[0] == version;
      StoreAt(s, t, version).(flush := if current then Some(s.flush.value.(landed := true)) else s.flush)
    case FlushOk =>
      var t := s.flush.value.target;
      NextFlush(s.(hints := s.hints[t := []], lost := s.lost + DroppedByClear(s, t)))
    case FlushFails =>
      NextFlush(s)
  }

  const EMPTY: State := State(map[], map[], map[], None, {}, {})

  /** A run, with the state each step led to. */
  datatype Run = Start | Then(prev: Run, step: Step, now: State)

  ghost function Final(run: Run): State {
    match run
    case Start => EMPTY
    case Then(_, _, now) => now
  }

  ghost predicate Legal(c: Config, run: Run) {
    match run
    case Start => true
    case Then(prev, step, now) =>
      Legal(c, prev) && Enabled(c, Final(prev), step) && now == Apply(c, Final(prev), step)
  }

  /** `later` continues `earlier`. */
  ghost predicate Extends(later: Run, earlier: Run) {
    later == earlier || (later.Then? && Extends(later.prev, earlier))
  }

  // ----- vocabulary of the properties

  ghost predicate IsVersion(s: State, v: Version) {
    exists o :: IsIssued(s, o) && VersionOf(s, o) == v
  }

  /** All versions issued for the key. */
  ghost function IssuedVersions(s: State): set<Version> {
    set o | o in s.ops && IsIssued(s, o) :: VersionOf(s, o)
  }

  /** A write or hint of the put towards `t` has no outcome yet. */
  predicate Outstanding(w: Writing, t: NodeId) {
    t in w.todo || (!w.begun && t in w.live) || t in w.pending || t in w.failing
  }

  ghost predicate NothingOutstanding(s: State, o: OpId)
    requires IsIssued(s, o)
  {
    forall t :: !Outstanding(WritingOf(s, o), t)
  }
}
