/** What folding `Reconciled` over versions computes: the maximal antichain.

    The central notion is the down-set of a sibling list, the clocks it covers.
    Reconciling adds exactly the down-set of the incoming version, so the final
    down-set cannot depend on order or duplicates, and an antichain is
    determined by its down-set up to clock equality. */
module Antichains {
  import opened Basics
  import opened VectorClocks

  ghost predicate Covers(vs: seq<Version>, c: Clock) {
    exists v :: v in vs && Leq(c, v.clock)
  }

  /** Pairwise concurrent; in particular no clock occurs twice. */
  ghost predicate Antichain(vs: seq<Version>) {
    forall i, j :: 0 <= i < |vs| && 0 <= j < |vs| && i != j ==> !Leq(vs[i].clock, vs[j].clock)
  }

  ghost predicate MaximalIn(v: Version, all: set<Version>) {
    v in all && forall w :: w in all && Leq(v.clock, w.clock) ==> Leq(w.clock, v.clock)
  }

  ghost predicate HasClock(vs: seq<Version>, c: Clock) {
    exists v :: v in vs && SameClock(v.clock, c)
  }

  /** `result` holds exactly one version for each maximal clock of `all`, and nothing else. */
  ghost predicate MaximalAntichain(result: seq<Version>, all: set<Version>) {
    && Antichain(result)
    && (forall v {:trigger MaximalIn(v, all)} :: v in result ==> MaximalIn(v, all))
    && (forall v {:trigger HasClock(result, v.clock)} :: MaximalIn(v, all) ==> HasClock(result, v.clock))
  }

  /** The same clocks, up to order and clock equality. */
  ghost predicate SameClocks(a: seq<Version>, b: seq<Version>) {
    && |a| == |b|
    && (forall v {:trigger HasClock(b, v.clock)} :: v in a ==> HasClock(b, v.clock))
    && (forall v {:trigger HasClock(a, v.clock)} :: v in b ==> HasClock(a, v.clock))
  }

  /** Every version of `a` is covered by `b`. */
  ghost predicate CoveredBy(a: seq<Version>, b: seq<Version>) {
    forall v {:trigger Covers(b, v.clock)} :: v in a ==> Covers(b, v.clock)
  }

  /** Applying versions one at a time, in list order. */
  function Fold(existing: seq<Version>, incoming: seq<Version>): seq<Version> {
    if incoming == [] then existing
    else Reconciled(Fold(existing, incoming[..|incoming| - 1]), incoming[|incoming| - 1])
  }

  lemma {:induction false} CoversDown(vs: seq<Version>, low: Clock, high: Clock)
    requires Leq(low, high) && Covers(vs, high)
    ensures Covers(vs, low)
  {
    var v :| v in vs && Leq(high, v.clock);
    LeqTransitive(low, high, v.clock);
  }

  // ----- one reconciliation

  lemma {:induction false} SurvivorsMembers(existing: seq<Version>, c: Clock)
    ensures forall v :: v in Survivors(existing, c) <==> v in existing && !Lt(v.clock, c)
  {
    if existing != [] {
      SurvivorsMembers(existing[..|existing| - 1], c);
      assert existing == existing[..|existing| - 1] + [existing[|existing| - 1]];
    }
  }

  lemma {:induction false} SurvivorsAntichain(existing: seq<Version>, c: Clock)
    requires Antichain(existing)
    ensures Antichain(Survivors(existing, c))
  {
    if existing != [] {
      var front := existing[..|existing| - 1];
      var last := existing[|existing| - 1];
      SurvivorsAntichain(front, c);
      SurvivorsMembers(front, c);
      forall v | v in Survivors(front, c)
        ensures !Leq(v.clock, last.clock) && !Leq(last.clock, v.clock)
      {
        var i :| 0 <= i < |front| && front[i] == v;
        assert existing[i] == v;
      }
    }
  }

  lemma {:induction false} ReconciledMembers(existing: seq<Version>, v: Version)
    ensures forall w :: w in Reconciled(existing, v) ==> w in existing || w == v
  {
    SurvivorsMembers(existing, v.clock);
  }

  /** Filtering takes the siblings one by one and keeps their order. */
  lemma {:induction false} SurvivorsConcat(a: seq<Version>, b: seq<Version>, c: Clock)
    ensures Survivors(a + b, c) == Survivors(a, c) + Survivors(b, c)
  {
    if b == [] {
      assert a + b == a;
    } else {
      SurvivorsConcat(a, b[..|b| - 1], c);
      assert (a + b)[..|a + b| - 1] == a + b[..|b| - 1];
    }
  }

  /** One reconciliation as a list: nothing changes if some sibling is at or above the
      incoming version, which is otherwise appended to the siblings it does not supersede. */
  lemma {:induction false} ReconciledList(existing: seq<Version>, v: Version)
    ensures Covers(existing, v.clock) ==> Reconciled(existing, v) == existing
    ensures !Covers(existing, v.clock) ==>
              && Reconciled(existing, v) == Survivors(existing, v.clock) + [v]
              && forall w :: w in Survivors(existing, v.clock) <==> w in existing && !Lt(w.clock, v.clock)
  {
    SurvivorsMembers(existing, v.clock);
  }

  /** The down-set grows by exactly the down-set of the incoming clock. */
  lemma {:induction false} ReconciledCovers(existing: seq<Version>, v: Version, c: Clock)
    ensures Covers(Reconciled(existing, v), c) <==> Covers(existing, c) || Leq(c, v.clock)
  {
    var r := Reconciled(existing, v);
    SurvivorsMembers(existing, v.clock);
    if stale :| stale in existing && Leq(v.clock, stale.clock) {
      if Leq(c, v.clock) {
        LeqTransitive(c, v.clock, stale.clock);
      }
    } else {
      assert v in r;
      if Covers(existing, c) {
        var w :| w in existing && Leq(c, w.clock);
        if Lt(w.clock, v.clock) {
          LeqTransitive(c, w.clock, v.clock);
        } else {
          assert w in r;
        }
      }
    }
  }

  lemma {:induction false} ReconciledAntichain(existing: seq<Version>, v: Version)
    requires Antichain(existing)
    ensures Antichain(Reconciled(existing, v))
  {
    if !exists w :: w in existing && Leq(v.clock, w.clock) {
      SurvivorsAntichain(existing, v.clock);
      SurvivorsMembers(existing, v.clock);
    }
  }

  // ----- folds

  lemma {:induction false} FoldProperties(existing: seq<Version>, incoming: seq<Version>)
    ensures forall w :: w in Fold(existing, incoming) ==> w in existing || w in incoming
    ensures Antichain(existing) ==> Antichain(Fold(existing, incoming))
  {
    if incoming != [] {
      var front, last := incoming[..|incoming| - 1], incoming[|incoming| - 1];
      FoldProperties(existing, front);
      ReconciledMembers(Fold(existing, front), last);
      if Antichain(existing) {
        ReconciledAntichain(Fold(existing, front), last);
      }
    }
  }

  lemma {:induction false} CoversSplit(front: seq<Version>, last: Version, c: Clock)
    ensures Covers(front + [last], c) <==> Covers(front, c) || Leq(c, last.clock)
  {
    if Covers(front, c) {
      var v :| v in front && Leq(c, v.clock);
      assert v in front + [last];
    }
    if Leq(c, last.clock) {
      assert last in front + [last];
    }
  }

  lemma {:induction false} FoldCovers(existing: seq<Version>, incoming: seq<Version>, c: Clock)
    ensures Covers(Fold(existing, incoming), c) <==> Covers(existing, c) || Covers(incoming, c)
  {
    if incoming != [] {
      var front, last := incoming[..|incoming| - 1], incoming[|incoming| - 1];
      assert incoming == front + [last];
      FoldCovers(existing, front, c);
      ReconciledCovers(Fold(existing, front), last, c);
      CoversSplit(front, last, c);
    }
  }

  lemma {:induction false} OnlyIncomingIsNew(existing: seq<Version>, incoming: Version, v: Version)
    requires v in Reconciled(existing, incoming) && v !in existing
    ensures v == incoming && !Covers(existing, v.clock)
  {
    ReconciledMembers(existing, incoming);
    ReconciledList(existing, incoming);
  }

  ghost predicate FirstOfItsClock(incoming: seq<Version>, i: nat, v: Version) {
    i < |incoming| && incoming[i] == v && forall j :: 0 <= j < i ==> !SameClock(incoming[j].clock, v.clock)
  }

  lemma {:induction false} LastIsFirstOfItsClock(front: seq<Version>, last: Version)
    requires !Covers(front, last.clock)
    ensures FirstOfItsClock(front + [last], |front|, last)
  {
    forall j | 0 <= j < |front|
      ensures !SameClock(front[j].clock, last.clock)
    {
      assert front[j] in front;
    }
  }

  lemma {:induction false} NewInFold(front: seq<Version>, last: Version, v: Version)
    requires v in Fold([], front + [last]) && v !in Fold([], front)
    ensures v == last && !Covers(front, last.clock)
  {
    assert (front + [last])[..|front|] == front;
    OnlyIncomingIsNew(Fold([], front), last, v);
    FoldCovers([], front, v.clock);
  }

  /** Each maximal clock has its version in the antichain. */
  lemma {:induction false} MaximalIsRepresented(result: seq<Version>, all: set<Version>, v: Version)
    returns (w: Version)
    requires MaximalAntichain(result, all) && MaximalIn(v, all)
    ensures w in result && w in all && SameClock(w.clock, v.clock)
  {
    assert HasClock(result, v.clock);
    w :| w in result && SameClock(w.clock, v.clock);
    assert MaximalIn(w, all);
  }

  /** Of several versions with one clock the first to arrive is kept. */
  lemma {:induction false} FoldKeepsFirst(incoming: seq<Version>, v: Version) returns (i: nat)
    requires v in Fold([], incoming)
    ensures FirstOfItsClock(incoming, i, v)
  {
    assert incoming != [];
    var front, last := incoming[..|incoming| - 1], incoming[|incoming| - 1];
    assert incoming == front + [last];
    if v in Fold([], front) {
      i := FoldKeepsFirst(front, v);
    } else {
      NewInFold(front, last, v);
      LastIsFirstOfItsClock(front, last);
      i := |front|;
    }
  }

  lemma {:induction false} FoldOneMore(replica: seq<Version>, applied: seq<Version>, v: Version)
    ensures Fold(replica, applied + [v]) == Reconciled(Fold(replica, applied), v)
  {
    assert (applied + [v])[..|applied|] == applied;
  }

  lemma {:induction false} FoldConcat(existing: seq<Version>, a: seq<Version>, b: seq<Version>)
    ensures Fold(existing, a + b) == Fold(Fold(existing, a), b)
  {
    if b == [] {
      assert a + b == a;
    } else {
      var front, last := b[..|b| - 1], b[|b| - 1];
      assert b == front + [last] && a + b == (a + front) + [last];
      FoldConcat(existing, a, front);
      FoldOneMore(existing, a + front, last);
      FoldOneMore(Fold(existing, a), front, last);
    }
  }

  /** An antichain of members of `all` that covers all of `all` is its maximal antichain. */
  lemma {:induction false} CoveringAntichainIsMaximal(result: seq<Version>, all: set<Version>)
    requires Antichain(result)
    requires forall v :: v in result ==> v in all
    requires forall v {:trigger Covers(result, v.clock)} :: v in all ==> Covers(result, v.clock)
    ensures MaximalAntichain(result, all)
  {
    forall v | v in result
      ensures MaximalIn(v, all)
    {
      forall w | w in all && Leq(v.clock, w.clock)
        ensures Leq(w.clock, v.clock)
      {
        assert Covers(result, w.clock);
        var u :| u in result && Leq(w.clock, u.clock);
        LeqTransitive(v.clock, w.clock, u.clock);
        assert u == v;
      }
    }
    forall v | MaximalIn(v, all)
      ensures HasClock(result, v.clock)
    {
      assert Covers(result, v.clock);
      var u :| u in result && Leq(v.clock, u.clock);
      assert SameClock(u.clock, v.clock);
    }
  }

  /** Folding any finite list, in whatever order and with duplicates, leaves
      exactly the maximal clocks of the list. */
  lemma {:induction false} FoldIsMaximalAntichain(incoming: seq<Version>)
    ensures MaximalAntichain(Fold([], incoming), Elems(incoming))
  {
    FoldProperties([], incoming);
    forall v | v in incoming
      ensures Covers(Fold([], incoming), v.clock)
    {
      FoldCovers([], incoming, v.clock);
      assert Leq(v.clock, v.clock);
    }
    CoveringAntichainIsMaximal(Fold([], incoming), Elems(incoming));
  }

  /** Every version lies below a maximal one, so the maximal antichain covers all. */
  lemma {:induction false} MaximalAbove(v: Version, all: set<Version>) returns (top: Version)
    requires v in all
    ensures MaximalIn(top, all) && Leq(v.clock, top.clock)
    decreases set w | w in all && Lt(v.clock, w.clock)
  {
    if w :| w in all && Leq(v.clock, w.clock) && !Leq(w.clock, v.clock) {
      StrictlyAboveShrinks(v, w, all);
      top := MaximalAbove(w, all);
      LeqTransitive(v.clock, w.clock, top.clock);
    } else {
      top := v;
    }
  }

  lemma {:induction false} StrictlyAboveShrinks(v: Version, w: Version, all: set<Version>)
    requires w in all && Lt(v.clock, w.clock)
    ensures (set u | u in all && Lt(w.clock, u.clock)) < (set u | u in all && Lt(v.clock, u.clock))
  {
    forall u | u in all && Lt(w.clock, u.clock)
      ensures Lt(v.clock, u.clock)
    {
      LeqTransitive(v.clock, w.clock, u.clock);
      if Leq(u.clock, v.clock) {
        LeqTransitive(u.clock, v.clock, w.clock);
      }
    }
    var above, below := set u | u in all && Lt(w.clock, u.clock), set u | u in all && Lt(v.clock, u.clock);
    assert w in below && w !in above && above <= below;
  }

  lemma {:induction false} MaximalAntichainCovers(result: seq<Version>, all: set<Version>, v: Version)
    requires MaximalAntichain(result, all) && v in all
    ensures Covers(result, v.clock)
  {
    var top := MaximalAbove(v, all);
    assert HasClock(result, top.clock);
    var u :| u in result && SameClock(u.clock, top.clock);
    LeqTransitive(v.clock, top.clock, u.clock);
  }

  // ----- antichains are determined by what they cover

  lemma {:induction false} AntichainNotLonger(a: seq<Version>, b: seq<Version>)
    requires Antichain(a)
    requires forall v {:trigger HasClock(b, v.clock)} :: v in a ==> HasClock(b, v.clock)
    ensures |a| <= |b|
    decreases |a|
  {
    if a != [] {
      var front, last := a[..|a| - 1], a[|a| - 1];
      assert HasClock(b, last.clock);
      var w :| w in b && SameClock(w.clock, last.clock);
      var j :| 0 <= j < |b| && b[j] == w;
      var rest := b[..j] + b[j + 1..];
      forall v | v in front
        ensures HasClock(rest, v.clock)
      {
        assert HasClock(b, v.clock);
        var u :| u in b && SameClock(u.clock, v.clock);
        if u == w {
          LeqTransitive(v.clock, w.clock, last.clock);
          assert false;
        }
        assert u in rest;
      }
      AntichainNotLonger(front, rest);
    }
  }

  lemma {:induction false} CoveredAntichainHasClock(a: seq<Version>, b: seq<Version>, v: Version)
    requires Antichain(a) && v in a
    requires CoveredBy(a, b)
    requires CoveredBy(b, a)
    ensures HasClock(b, v.clock)
  {
    assert Covers(b, v.clock);
    var w :| w in b && Leq(v.clock, w.clock);
    assert Covers(a, w.clock);
    var u :| u in a && Leq(w.clock, u.clock);
    LeqTransitive(v.clock, w.clock, u.clock);
    assert u == v;
    assert SameClock(w.clock, v.clock);
  }

  lemma {:induction false} MutualCoverSameClocks(a: seq<Version>, b: seq<Version>)
    requires Antichain(a) && Antichain(b)
    requires CoveredBy(a, b)
    requires CoveredBy(b, a)
    ensures SameClocks(a, b)
  {
    forall v | v in a
      ensures HasClock(b, v.clock)
    {
      CoveredAntichainHasClock(a, b, v);
    }
    forall v | v in b
      ensures HasClock(a, v.clock)
    {
      CoveredAntichainHasClock(b, a, v);
    }
    AntichainNotLonger(a, b);
    AntichainNotLonger(b, a);
  }

  /** Two lists that cover each other fold to the same clocks: order, duplicates
      and the omission of superseded versions make no difference. */
  lemma {:induction false} FoldConverges(xs: seq<Version>, ys: seq<Version>)
    requires CoveredBy(xs, ys)
    requires CoveredBy(ys, xs)
    ensures SameClocks(Fold([], xs), Fold([], ys))
  {
    FoldProperties([], xs);
    FoldProperties([], ys);
    forall v | v in Fold([], xs)
      ensures Covers(Fold([], ys), v.clock)
    {
      assert Covers(ys, v.clock);
      FoldCovers([], ys, v.clock);
    }
    forall v | v in Fold([], ys)
      ensures Covers(Fold([], xs), v.clock)
    {
      assert Covers(xs, v.clock);
      FoldCovers([], xs, v.clock);
    }
    MutualCoverSameClocks(Fold([], xs), Fold([], ys));
  }

  /** In particular, permuting or duplicating the input changes nothing. */
  lemma {:induction false} FoldOrderIrrelevant(xs: seq<Version>, ys: seq<Version>)
    requires Elems(xs) == Elems(ys)
    ensures SameClocks(Fold([], xs), Fold([], ys))
  {
    forall v | v in xs
      ensures Covers(ys, v.clock)
    {
      assert v in Elems(xs) && Leq(v.clock, v.clock);
    }
    forall v | v in ys
      ensures Covers(xs, v.clock)
    {
      assert v in Elems(ys) && Leq(v.clock, v.clock);
    }
    FoldConverges(xs, ys);
  }

  /** Two versions of `all` that nothing supersedes and whose clocks differ. */
  ghost predicate TwoMaximal(all: set<Version>) {
    exists v, w :: MaximalIn(v, all) && MaximalIn(w, all) && !SameClock(v.clock, w.clock)
  }

  lemma {:induction false} SameClockVia(a: Clock, b: Clock, c: Clock)
    requires SameClock(b, a) && SameClock(b, c)
    ensures SameClock(a, c)
  {
    LeqTransitive(a, b, c);
    LeqTransitive(c, b, a);
  }

  lemma {:induction false} TwoMaximalNeedTwo(result: seq<Version>, all: set<Version>)
    requires MaximalAntichain(result, all) && TwoMaximal(all)
    ensures |result| > 1
  {
    var v, w :| MaximalIn(v, all) && MaximalIn(w, all) && !SameClock(v.clock, w.clock);
    assert HasClock(result, v.clock);
    var v' :| v' in result && SameClock(v'.clock, v.clock);
    assert HasClock(result, w.clock);
    var w' :| w' in result && SameClock(w'.clock, w.clock);
    if v' == w' {
      SameClockVia(v.clock, v'.clock, w.clock);
    }
    assert v' != w';
  }

  /** The maximal antichain is a conflict exactly when two maximal clocks differ. */
  lemma {:induction false} ConflictIffTwoMaximal(result: seq<Version>, all: set<Version>)
    requires MaximalAntichain(result, all)
    ensures |result| > 1 <==> TwoMaximal(all)
  {
    if |result| > 1 {
      assert MaximalIn(result[0], all) && MaximalIn(result[1], all);
      assert !SameClock(result[0].clock, result[1].clock);
    }
    if TwoMaximal(all) {
      TwoMaximalNeedTwo(result, all);
    }
  }
}
