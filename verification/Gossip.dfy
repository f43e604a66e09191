/** The gossip failure detector: heartbeat counters merged by strict increase,
    stamped with the observer's own clock. */
module Gossip {
  import opened Basics
  import opened VectorClocks

  /** Counter, and the local time this observer last saw it advance. */
  datatype Entry = Entry(counter: nat, seen: real)

  type Table = map<NodeId, Entry>

  type Wire = map<NodeId, nat>

  function WireOf(table: Table): Wire {
    map n | n in table :: table[n].counter
  }

  predicate Raises(table: Table, self: NodeId, incoming: Wire, n: NodeId) {
    n != self && n in incoming && (n !in table || incoming[n] > table[n].counter)
  }

  function Ticked(table: Table, self: NodeId, now: real): Table
    requires self in table
  {
    table[self := Entry(table[self].counter + 1, now)]
  }

  /** New nodes are adopted, higher counters are adopted and stamped, everything
      else, and anything about oneself, is ignored. */
  function MergedTable(table: Table, self: NodeId, incoming: Wire, now: real): Table {
    map n | n in table.Keys + incoming.Keys && (n in table || n != self) ::
      if Raises(table, self, incoming, n) then Entry(incoming[n], now) else table[n]
  }

  predicate BelievedDown(table: Table, self: NodeId, node: NodeId, now: real, timeout: real) {
    node != self && node in table && now - table[node].seen > timeout
  }

  class GossipState {
    const nodeId: NodeId
    var table: Table

    ghost predicate Valid()
      reads this
    {
      nodeId in table
    }

    constructor (nodeId: NodeId, now: real)
      ensures Valid() && this.nodeId == nodeId
      ensures table == map[nodeId := Entry(0, now)]
    {
      this.nodeId := nodeId;
      table := map[nodeId := Entry(0, now)];
    }

    method Tick(now: real)
      requires Valid()
      modifies this
      ensures Valid() && table == Ticked(old(table), nodeId, now)
      ensures table[nodeId] == Entry(old(table)[nodeId].counter + 1, now)
      ensures forall n :: n != nodeId ==> (n in table <==> n in old(table)) && (n in table ==>
          table[n] == old(table)[n])
    {
      var counter := table[nodeId].counter;
      table := table[nodeId := Entry(counter + 1, now)];
    }

    method ToWire() returns (wire: Wire)
      ensures wire == WireOf(table)
    {
      wire := map n | n in table :: table[n].counter;
    }

    method MergeWire(incoming: Wire, now: real)
      requires Valid()
      modifies this
      ensures Valid() && table == MergedTable(old(table), nodeId, incoming, now)
      ensures table[nodeId] == old(table)[nodeId]
      ensures forall n :: n != nodeId ==> (n in table <==> n in old(table) || n in incoming)
      ensures forall n :: n in table && n != nodeId ==>
                table[n] == if n in incoming && (n !in old(table) || incoming[n] > old(table)[n].counter)
                            then Entry(incoming[n], now) else old(table)[n]
    {
      var todo := incoming.Keys;
      ghost var before := table;
      while todo != {}
        invariant todo <= incoming.Keys
        invariant nodeId in table
        invariant table.Keys == before.Keys + (incoming.Keys - todo - {nodeId})
        invariant forall n :: n in table ==>
            table[n] == if n !in todo && Raises(before, nodeId, incoming, n) then Entry(incoming[n], now) else before[n]
        decreases todo
      {
        var n :| n in todo;
        todo := todo - {n};
        if n != nodeId {
          if n !in table {
            table := table[n := Entry(incoming[n], now)];
          } else if incoming[n] > table[n].counter {
            table := table[n := Entry(incoming[n], now)];
          }
        }
      }
    }

    method IsBelievedDown(node: NodeId, now: real, timeout: real) returns (down: bool)
      ensures down <==> BelievedDown(table, nodeId, node, now, timeout)
    {
      if node == nodeId {
        return false;
      }
      if node !in table {
        return false;
      }
      down := now - table[node].seen > timeout;
    }

    method DownNodes(now: real, timeout: real) returns (down: set<NodeId>)
      ensures forall n :: n in down <==> BelievedDown(table, nodeId, n, now, timeout)
    {
      down := set n | n in table && BelievedDown(table, nodeId, n, now, timeout);
    }
  }

  // ----- one observer's history

  datatype Event = TickAt(at: real) | MergeAt(incoming: Wire, at: real)

  function Observe(table: Table, self: NodeId, event: Event): Table
    requires self in table
  {
    match event
    case TickAt(at) => Ticked(table, self, at)
    case MergeAt(incoming, at) => MergedTable(table, self, incoming, at)
  }

  function After(self: NodeId, start: real, events: seq<Event>): (table: Table)
    ensures self in table
  {
    if events == [] then map[self := Entry(0, start)]
    else Observe(After(self, start, events[..|events| - 1]), self, events[|events| - 1])
  }

  /** The events carry a non-decreasing clock. */
  ghost predicate Chronological(events: seq<Event>) {
    forall i, j :: 0 <= i <= j < |events| ==> events[i].at <= events[j].at
  }

  predicate Mentions(event: Event, node: NodeId) {
    event.MergeAt? && node in event.incoming
  }

  /** Event `i` introduced `node` or reported a counter above every earlier report:
      stated on the history alone, without the table. */
  ghost predicate Advances(events: seq<Event>, i: int, node: NodeId) {
    && 0 <= i < |events|
    && Mentions(events[i], node)
    && forall j :: 0 <= j < i && Mentions(events[j], node) ==> events[j].incoming[node] < events[i].incoming[node]
  }

  /** `i` is the last advance of `node`. */
  ghost predicate LastAdvance(events: seq<Event>, i: int, node: NodeId) {
    Advances(events, i, node) && forall j :: i < j < |events| ==> !Advances(events, j, node)
  }

  lemma {:induction false} AdvancesInPrefix(events: seq<Event>, k: nat, node: NodeId)
    requires k <= |events|
    ensures forall j :: 0 <= j < k ==> (Advances(events[..k], j, node) <==> Advances(events, j, node))
  {
    assert forall j :: 0 <= j < k ==> events[..k][j] == events[j];
  }

  lemma {:induction false} EntryIsLastAdvance(self: NodeId, start: real, events: seq<Event>, node: NodeId)
    returns (i: int)
    requires node != self
    ensures node !in After(self, start, events) ==> i == -1 && forall j :: 0 <= j < |events| ==>
        !Mentions(events[j], node)
    ensures node in After(self, start, events) ==>
              && LastAdvance(events, i, node)
              && After(self, start, events)[node] == Entry(events[i].incoming[node], events[i].at)
              && forall j :: 0 <= j < |events| && Mentions(events[j], node) ==>
                   events[j].incoming[node] <= events[i].incoming[node]
  {
    if events == [] {
      i := -1;
    } else {
      var front, last := events[..|events| - 1], |events| - 1;
      i := EntryIsLastAdvance(self, start, front, node);
      var before := After(self, start, front);
      AdvancesInPrefix(events, last, node);
      if events[last].MergeAt? && Raises(before, self, events[last].incoming, node) {
        i := last;
      }
    }
  }

  /** Exactness: a peer is believed down precisely when the history mentions it and
      more than `timeout` has passed since its last advance. */
  lemma {:induction false} BelievedDownExact(self: NodeId, start: real, events: seq<Event>, node: NodeId, now: real,
                                             timeout: real)
    ensures BelievedDown(After(self, start, events), self, node, now, timeout) <==>
              node != self && exists i :: LastAdvance(events, i, node) && now - events[i].at > timeout
  {
    if node != self {
      var i := EntryIsLastAdvance(self, start, events, node);
      forall j | LastAdvance(events, j, node)
        ensures j == i
      {
        assert Mentions(events[j], node);
      }
    }
  }

  /** With a non-decreasing clock this says: every advance is older than the timeout. */
  lemma {:induction false} BelievedDownIffSilent(self: NodeId, start: real, events: seq<Event>, node: NodeId,
                                                 now: real, timeout: real)
    requires Chronological(events) && node != self
    ensures BelievedDown(After(self, start, events), self, node, now, timeout) <==>
              && (exists i :: 0 <= i < |events| && Mentions(events[i], node))
              && (forall i :: Advances(events, i, node) ==> now - events[i].at > timeout)
  {
    var i := EntryIsLastAdvance(self, start, events, node);
    if node in After(self, start, events) {
      assert Mentions(events[i], node);
      forall j | Advances(events, j, node)
        ensures events[j].at <= events[i].at
      {
      }
    }
  }

  /** A table with nothing newer about `node` never changes the answer about it, and
      neither do the observer's own ticks. */
  lemma {:induction false} StaleNewsChangesNothing(self: NodeId, start: real, events: seq<Event>, event: Event,
                                node: NodeId, now: real, timeout: real)
    requires node != self
    requires Mentions(event, node) ==>
               exists j :: 0 <= j < |events| && Mentions(events[j], node)
                   && event.incoming[node] <= events[j].incoming[node]
    ensures BelievedDown(After(self, start, events + [event]), self, node, now, timeout) <==>
            BelievedDown(After(self, start, events), self, node, now, timeout)
  {
    assert (events + [event])[..|events|] == events;
    var i := EntryIsLastAdvance(self, start, events, node);
  }
}
