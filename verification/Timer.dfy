/**
 src/timer_manager.cpp: the table of connections and the idle check, taken as
 one atomic step beside the connection machine. Whether a connection has been
 quiet for longer than the timeout is an input.
 */
module Timer {
  import opened Text
  import opened Framing
  import opened Machine
  import opened ReaderProofs
  import opened ConnectionTheorems
  import opened ConnectionObject

  class TimerManager {
    var connections: map<nat, Connection?>   // a null entry is an expired weak_ptr

    constructor ()
      ensures connections == map[]
    {
      connections := map[];
    }

    method AddConnection(connection: Connection, id: nat)
      modifies this
      ensures connections == old(connections)[id := connection]
    {
      connections := connections[id := connection];
    }

    method RemoveConnection(id: nat)
      modifies this
      ensures connections == old(connections) - {id}
    {
      connections := connections - {id};
    }

    /** The connections in the table that still exist. */
    ghost function Watched(): set<Connection>
      reads this
    {
      set c: Connection | c in connections.Values
    }

    /**
     One pass over the table: exactly the expired entries go; exactly the quiet
     connections that are not processing are cancelled; and every other
     connection stays as it is. One of them can be in the table more than once.
     */
    method CheckIdleConnections(idle: set<nat>, ghost streams: map<nat, bytes>) returns (cancelled: set<nat>)
      requires forall id :: id in connections && connections[id] != null ==>
                 id in streams && Sound(connections[id].maxBodySize, streams[id], connections[id].View())
      modifies this, Watched()
      ensures connections == map id | id in old(connections) && old(connections)[id] != null :: old(connections)[id]
      ensures forall id :: id in cancelled <==>
                id in old(connections) && old(connections)[id] != null && !old(connections[id].isProcessing) && id in idle
      ensures forall c :: c in old(Watched()) ==>
                c.View() == if Hit(old(connections), cancelled, c) then Cancelled(old(c.View())) else old(c.View())
    {
      hide Sound, Cancelled;
      cancelled := {};
      var it := connections.Keys;
      ghost var before := connections;
      forall c | c in Watched()
        ensures AwaitsHeader(c.View())
      {
        var id :| id in connections && connections[id] == c;
        SoundAwaits(c.maxBodySize, streams[id], c.View());
      }
      while it != {}
        invariant it <= before.Keys
        invariant forall id :: id in it ==> id in connections
        invariant forall id :: id in connections ==> id in before && connections[id] == before[id]
        invariant forall id :: id in before && id !in it ==> (id in connections <==> before[id] != null)
        invariant forall id :: id in cancelled <==>
                    id in before && id !in it && before[id] != null && !old(before[id].isProcessing) && id in idle
        invariant forall c :: c in old(Watched()) ==>
                    c.View() == if Hit(before, cancelled, c) then Cancelled(old(c.View())) else old(c.View())
      {
        var id :| id in it;
        var conn := connections[id];
        if conn != null {
          assert conn in old(Watched());
          ghost var was := cancelled;
          CancelledOnce(old(conn.View()));
          assert conn.isProcessing == old(conn.isProcessing);
          if !conn.isProcessing && id in idle {
            conn.Cancel();
            cancelled := cancelled + {id};
          }
          HitsGrow(before, was, id);
        } else {
          connections := connections - {id};
        }
        it := it - {id};
      }
    }
  }

  /** One of those entries is the connection c. */
  ghost predicate Hit(table: map<nat, Connection?>, ids: set<nat>, c: Connection) {
    exists id :: id in ids && id in table && table[id] == c
  }

  lemma HitsGrow(table: map<nat, Connection?>, ids: set<nat>, id: nat)
    requires id in table
    ensures forall c: Connection :: Hit(table, ids + {id}, c) <==> Hit(table, ids, c) || table[id] == c
  {
    forall c: Connection
      ensures Hit(table, ids + {id}, c) <==> Hit(table, ids, c) || table[id] == c
    {
      if table[id] == c { assert id in ids + {id}; }
    }
  }

  /** What is outstanding while a connection does not count as processing is a header read. */
  predicate AwaitsHeader(s: State) { !s.processing && s.pending != [] ==> s.pending[0].op.HeaderRead? }

  lemma SoundAwaits(limit: nat, stream: bytes, s: State)
    requires Sound(limit, stream, s)
    ensures AwaitsHeader(s)
  {}

  lemma CancelledOnce(s: State)
    ensures Cancelled(s).pending == [] && (!s.processing ==> !Cancelled(s).processing)
    ensures Cancelled(Cancelled(s)) == Cancelled(s)
  {}

  /** In every run, a connection with work in flight counts as not processing exactly while it waits for a header. */
  lemma IdleMeansAwaitingHeader(limit: nat, stream: bytes, run: seq<Turn>)
    requires CanRun(limit, Start(stream), run)
    ensures var s := Run(limit, Start(stream), run);
            s.pending != [] ==> (!s.processing <==> s.pending[0].op.HeaderRead?)
  {
    hide Run, CanRun, ParseAll;
    RequestsFollowTheStream(limit, stream, run);
  }

  lemma CancelIsACompletion(limit: nat, stream: bytes, s: State)
    requires Sound(limit, stream, s) && s.pending != [] && !s.processing
    ensures Enabled(s, s.pending[0].op, ReadFailed(0, Aborted))
    ensures Step(limit, s, 0, ReadFailed(0, Aborted)) == Cancelled(s)
    ensures var t := Cancelled(s);
            t.pending == [] && t.socket == Closed && t.actions == s.actions && t.wire == s.wire
            && t.consumed == s.consumed && Upcoming(t) == Upcoming(s)
  {
    hide Find;
    assert s.pending[..0] + s.pending[1..] == [];
    assert s.buffer + s.unread[..0] == s.buffer && s.unread[0..] == s.unread;
  }

  lemma {:induction false} RunSnoc(limit: nat, s: State, run: seq<Turn>, turn: Turn)
    requires CanRun(limit, s, run)
    requires var t := Run(limit, s, run); turn.k < |t.pending| && Enabled(t, t.pending[turn.k].op, turn.event)
    ensures CanRun(limit, s, run + [turn])
    ensures Run(limit, s, run + [turn]) == Step(limit, Run(limit, s, run), turn.k, turn.event)
    decreases |run|
  {
    hide Step, Enabled;
    var all := run + [turn];
    if run == [] {
      assert all == [turn] && all[1..] == [];
      var t := Step(limit, s, turn.k, turn.event);
      assert CanRun(limit, t, []) && Run(limit, t, []) == t;
    } else {
      assert all[0] == run[0] && all[1..] == run[1..] + [turn];
      RunSnoc(limit, Step(limit, s, run[0].k, run[0].event), run[1..], turn);
    }
  }

  /**
   An idle check after any run, on a connection it cancels: what it leaves is
   what a longer run leaves, so all that holds of every run holds with idle
   checks in it. The connection is closed, with no byte taken from the stream
   and nothing that was done or sent changed.
   */
  lemma IdleCheckIsACompletion(limit: nat, stream: bytes, run: seq<Turn>)
    requires CanRun(limit, Start(stream), run)
    requires Run(limit, Start(stream), run).pending != [] && !Run(limit, Start(stream), run).processing
    ensures var s, longer := Run(limit, Start(stream), run), run + [Turn(0, ReadFailed(0, Aborted))];
            && CanRun(limit, Start(stream), longer) && Run(limit, Start(stream), longer) == Cancelled(s)
            && var t := Cancelled(s);
               && t.pending == [] && t.socket == Closed && t.actions == s.actions && t.wire == s.wire
               && t.consumed == s.consumed && Upcoming(t) == Upcoming(s)
  {
    hide Run, CanRun, ParseAll, Step, Enabled, Cancelled;
    RequestsFollowTheStream(limit, stream, run);
    CancelIsACompletion(limit, stream, Run(limit, Start(stream), run));
    RunSnoc(limit, Start(stream), run, Turn(0, ReadFailed(0, Aborted)));
  }
}
