/** Extending runs: single steps, reads, and fresh operations. */
module Continuations {
  import opened Basics
  import opened VectorClocks
  import opened Quorums
  import opened Replication

  lemma {:induction false} Take(c: Config, run: Run, step: Step) returns (next: Run)
    requires Legal(c, run) && Enabled(c, Final(run), step)
    ensures Legal(c, next) && Final(next) == Apply(c, Final(run), step)
    ensures Extends(next, run)
  {
    next := Then(run, step, Apply(c, Final(run), step));
  }

  lemma {:induction false} ExtendsTransitive(a: Run, b: Run, d: Run)
    requires Extends(b, a) && Extends(d, b)
    ensures Extends(d, a)
    decreases d
  {
    if d != b {
      ExtendsTransitive(a, b, d.prev);
    }
  }

  /** The replies of `from`, all taken from the same state. */
  function ServedBy(s: State, from: seq<NodeId>): map<NodeId, seq<Version>> {
    map t | t in Elems(from) :: Rep(s, t)
  }

  lemma {:induction false} ServedByNext(s: State, from: seq<NodeId>)
    requires from != [] && Distinct(from)
    ensures var front, last := from[..|from| - 1], from[|from| - 1];
            && from == front + [last] && last !in front && Elems(from) == Elems(front) + {last}
            && ServedBy(s, from) == ServedBy(s, front)[last := Rep(s, last)]
  {
    var front, last := from[..|from| - 1], from[|from| - 1];
    assert from == front + [last];
    ElemsAppend(front, last);
  }

  /** The read of `op` after `from` have answered, in this order. */
  function AnsweredBy(s: State, id: OpId, from: seq<NodeId>): State
    requires id in s.ops
  {
    SetOp(s, id, s.ops[id].(served := ServedBy(s, from), collected := from))
  }

  /** One replica answers and its reply is counted. */
  lemma {:induction false} AnsweredNext(c: Config, s: State, id: OpId, from: seq<NodeId>)
    requires id in s.ops && s.ops[id].phase.Reading?
    requires from != [] && Distinct(from) && Elems(from) <= Elems(c.prefs) && |from| <= ReadThreshold(c)
    ensures var front, last := from[..|from| - 1], from[|from| - 1];
            var before := AnsweredBy(s, id, front);
            && Enabled(c, before, ServeRead(id, last))
            && var served := Apply(c, before, ServeRead(id, last));
               && Enabled(c, served, CollectRead(id, last))
               && Apply(c, served, CollectRead(id, last)) == AnsweredBy(s, id, from)
  {
    var front, last := from[..|from| - 1], from[|from| - 1];
    ServedByNext(s, from);
    assert last in Elems(from);
    assert Rep(AnsweredBy(s, id, front), last) == Rep(s, last);
  }

  /** A read that just started is answered by the given replicas, in this order. */
  lemma {:induction false} ReadEach(c: Config, run: Run, id: OpId, from: seq<NodeId>) returns (next: Run)
    requires Legal(c, run) && id in Final(run).ops
    requires var op := Final(run).ops[id]; op.phase.Reading? && op.served == map[] && op.collected == []
    requires Distinct(from) && Elems(from) <= Elems(c.prefs) && |from| <= ReadThreshold(c)
    ensures Legal(c, next) && Extends(next, run)
    ensures Final(next) == AnsweredBy(Final(run), id, from)
  {
    if from == [] {
      next := run;
      assert ServedBy(Final(run), from) == map[];
    } else {
      ServedByNext(Final(run), from);
      AnsweredNext(c, Final(run), id, from);
      var half := ReadEach(c, run, id, from[..|from| - 1]);
      var served := Take(c, half, ServeRead(id, from[|from| - 1]));
      next := Take(c, served, CollectRead(id, from[|from| - 1]));
      ExtendsTransitive(run, half, served);
      ExtendsTransitive(run, served, next);
    }
  }

  function Replied(s: State, readers: seq<NodeId>): seq<seq<Version>> {
    seq(|readers|, i requires 0 <= i < |readers| => Rep(s, readers[i]))
  }

  /** A new operation, a put if there is a value, has collected the replies of `readers`. */
  lemma {:induction false} ReadBy(c: Config, run: Run, id: OpId, p: NodeId, value: Option<Value>, readers: seq<NodeId>)
    returns (next: Run)
    requires Legal(c, run) && id !in Final(run).ops
    requires Distinct(readers) && Elems(readers) <= Elems(c.prefs) && |readers| <= ReadThreshold(c)
    ensures Legal(c, next) && Extends(next, run)
    ensures var s := Final(run);
            && Final(next) == SetOp(s, id, Op(value, p, AckedOps(c, s), ServedBy(s, readers), readers, Reading))
            && Replies(Final(next).ops[id]) == Replied(s, readers)
  {
    var s := Final(run);
    var started := Take(c, run, if value.Some? then StartPut(id, p, value.value) else StartGet(id, p));
    next := ReadEach(c, started, id, readers);
    ExtendsTransitive(run, started, next);
    AnsweredSame(s, Final(started), id, readers);
  }

  /** Starting an operation changes no replica, so the replies are those of the state before. */
  lemma {:induction false} AnsweredSame(s: State, started: State, id: OpId, readers: seq<NodeId>)
    requires id in started.ops && started == SetOp(s, id, started.ops[id])
    ensures AnsweredBy(started, id, readers)
            == SetOp(s, id, started.ops[id].(served := ServedBy(s, readers), collected := readers))
    ensures Replies(AnsweredBy(started, id, readers).ops[id]) == Replied(s, readers)
  {
    assert forall t :: Rep(started, t) == Rep(s, t);
    assert ServedBy(started, readers) == ServedBy(s, readers);
    assert forall i :: 0 <= i < |readers| ==> readers[i] in Elems(readers);
  }

  /** An identifier no operation has yet. */
  lemma {:induction false} FreshId(ids: set<OpId>) returns (id: OpId)
    ensures id !in ids
  {
    var bound := Bound(ids);
    id := bound;
  }

  lemma {:induction false} Bound(ids: set<OpId>) returns (bound: OpId)
    ensures forall id :: id in ids ==> id < bound
  {
    if ids == {} {
      bound := 0;
    } else {
      var id :| id in ids;
      var rest := Bound(ids - {id});
      bound := Max(rest, id + 1);
      forall i | i in ids
        ensures i < bound
      {
        assert i in ids - {id} || i == id;
      }
    }
  }
}
