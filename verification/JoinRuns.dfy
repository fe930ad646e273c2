/** Two networks that connect to each other at the same time: their links follow the model of the two ends. */
module JoinRuns {
  import opened Options
  import opened JoinCallbacks
  import opened SimultaneousJoin
  import opened CalvinNetworking

  /** The connection that the higher node asked for, and the one that the lower node asked for. */
  datatype Connections = Connections(high: Transport, low: Transport) {
    function Of(side: Side): Transport {
      if side.High? then high else low
    }
  }

  ghost function Owned(net: CalvinNetwork): set<CalvinLink>
    reads net
  {
    net.links.Values + set link | link in net.closing
  }

  /** The link is that of the end, and a connection waits to be closed where the end has a timer for it. */
  ghost predicate Mirrors(net: CalvinNetwork, s: System, at: Side, peer: NodeId, c: Connections)
    reads net, net.links.Values, net.closing, set p | p in net.links :: net.links[p].table
  {
    && net.Valid() && (peer in net.links <==> At(s, at).link.Some?)
    && (At(s, at).link.Some? ==> net.Uses(peer, c.Of(At(s, at).link.value)))
    && (forall link :: link in net.closing ==> link !in net.links.Values && link.transport == c.low)
    && |net.closing| == (if (at, Low) in s.timers then 1 else 0)
  }

  predicate Drops(s: System, ids: (NodeId, NodeId), at: Side, conn: Side) {
    var choice := Choose(Id(ids, at), Id(ids, Other(at)), At(s, at).link.Some?, false, conn == at);
    choice.Drop? || choice.DropOriginator?
  }

  /** A node learns that one of the two connections is there. */
  method FinishOne(net: CalvinNetwork, ghost s: System, ghost ids: (NodeId, NodeId), at: Side, conn: Side,
                   peer: NodeId, uri: string, c: Connections)
    requires ids.0 > ids.1 && Inv(s) && Enabled(s, Finish(at, conn)) && net.nodeId == Id(ids, at)
    requires peer == Id(ids, Other(at))
    requires Mirrors(net, s, at, peer, c)
    modifies net, if peer in net.links then {net.links[peer]} else {}
    ensures Mirrors(net, FinishAt(s, ids, at, conn), at, peer, c)
    ensures net.disconnects == old(net.disconnects) + if Drops(s, ids, at, conn) then [c.Of(conn)] else []
    ensures fresh(Owned(net) - old(Owned(net)))
  {
    hide Accounted, ReplyTable.Valid;
    ghost var links := net.links;
    net.JoinFinished(Some(c.Of(conn)), peer, uri, at == conn);
    forall p | p in net.links && peer in links ensures net.links[p] != links[peer] || net.links[peer] == links[peer] {
      assert p != peer ==> net.links[p] == links[p] && links[p].peerId == p;
    }
    assert forall link :: link in net.closing ==> link !in net.links.Values;
  }

  method DisconnectOne(net: CalvinNetwork, ghost s: System, ghost ids: (NodeId, NodeId), at: Side, conn: Side,
                       peer: NodeId, c: Connections)
    requires ids.0 > ids.1 && Inv(s) && Enabled(s, Disconnected(at, conn)) && c.high != c.low
    requires Mirrors(net, s, at, peer, c)
    modifies net`links
    ensures Mirrors(net, Apply(s, ids, Disconnected(at, conn)), at, peer, c)
    ensures Owned(net) <= old(Owned(net))
  {
    hide Accounted;
    net.PeerDisconnected(c.Of(conn), peer);
  }

  method CloseOne(net: CalvinNetwork, ghost s: System, ghost ids: (NodeId, NodeId), at: Side, conn: Side, peer: NodeId,
                  c: Connections)
    requires ids.0 > ids.1 && Inv(s) && Enabled(s, CloseOld(at, conn))
    requires Mirrors(net, s, at, peer, c)
    modifies net`closing, net`disconnects
    ensures Mirrors(net, Apply(s, ids, CloseOld(at, conn)), at, peer, c)
    ensures net.disconnects == old(net.disconnects) + [c.Of(conn)]
    ensures Owned(net) <= old(Owned(net))
  {
    hide Accounted;
    assert (at, conn) == (Low, Low) && net.closing[0] in net.closing;
    net.CloseOld(0);
  }

  /** The networks of the two nodes have nothing in common. */
  ghost predicate Apart(high: CalvinNetwork, low: CalvinNetwork)
    reads high, low
  {
    high != low && Owned(high) !! Owned(low)
  }

  /** The connections that were closed by one of the nodes. */
  ghost predicate ClosedBy(high: CalvinNetwork, low: CalvinNetwork, s: System, c: Connections)
    reads high, low
  {
    forall conn :: conn in s.closed <==> c.Of(conn) in high.disconnects + low.disconnects
  }

  ghost predicate BothMirror(high: CalvinNetwork, low: CalvinNetwork, s: System, c: Connections)
    reads high, high.links.Values, high.closing, set p | p in high.links :: high.links[p].table
    reads low, low.links.Values, low.closing, set p | p in low.links :: low.links[p].table
  {
    && Apart(high, low) && ClosedBy(high, low, s, c)
    && Mirrors(high, s, High, low.nodeId, c) && Mirrors(low, s, Low, high.nodeId, c)
  }

  /** An event at one end is none at the other. */
  predicate Elsewhere(e: Event, at: Side) {
    e.Start? || e.at != at
  }

  lemma OtherEnd(net: CalvinNetwork, s: System, ids: (NodeId, NodeId), at: Side, peer: NodeId, c: Connections, e: Event)
    requires Elsewhere(e, at)
    ensures Mirrors(net, Apply(s, ids, e), at, peer, c) <==> Mirrors(net, s, at, peer, c)
  {
  }

  /** What the network closes is what becomes closed in the model. */
  ghost predicate Closes(s: System, s': System, before: seq<Transport>, after: seq<Transport>, c: Connections) {
    before <= after && forall conn :: conn in s'.closed <==> conn in s.closed || c.Of(conn) in after[|before|..]
  }

  /** The network keeps away from the links of the others. */
  method EventAt(net: CalvinNetwork, ghost s: System, ghost ids: (NodeId, NodeId), e: Event, at: Side, peer: NodeId,
                 c: Connections, uri: string,
                 ghost others: set<CalvinLink>)
    requires ids.0 > ids.1 && c.high != c.low && Inv(s) && Enabled(s, e) && !Elsewhere(e, at)
    requires net.nodeId == Id(ids, at) && peer == Id(ids, Other(at)) && Mirrors(net, s, at, peer, c)
    requires Owned(net) !! others
    modifies net, if peer in net.links then {net.links[peer]} else {}
    ensures Mirrors(net, Apply(s, ids, e), at, peer, c) && Owned(net) !! others
    ensures Closes(s, Apply(s, ids, e), old(net.disconnects), net.disconnects, c)
    ensures fresh(Owned(net) - old(Owned(net)))
  {
    hide Mirrors, Inv;
    if e.Finish? {
      FinishOne(net, s, ids, e.at, e.conn, peer, uri, c);
    } else if e.Disconnected? {
      DisconnectOne(net, s, ids, e.at, e.conn, peer, c);
    } else {
      CloseOne(net, s, ids, e.at, e.conn, peer, c);
    }
  }

  lemma StillClosedBy(s: System, s': System, before: seq<Transport>, after: seq<Transport>, others: seq<Transport>,
                      c: Connections)
    requires Closes(s, s', before, after, c)
    requires forall conn :: conn in s.closed <==> c.Of(conn) in before || c.Of(conn) in others
    ensures forall conn :: conn in s'.closed <==> c.Of(conn) in after || c.Of(conn) in others
  {
    assert after == before + after[|before|..];
  }

  /** What one network touches is not the other's. */
  lemma LinkIsOwn(net: CalvinNetwork, other: CalvinNetwork, peer: NodeId)
    requires Apart(net, other)
    ensures peer in net.links ==>
              net.links[peer] in Owned(net) && net.links[peer] !in other.links.Values &&
                net.links[peer] !in other.closing
  {
  }

  /** One event of the two ends, at the network that it happens to. */
  method OneEvent(high: CalvinNetwork, low: CalvinNetwork, ghost s: System, e: Event, c: Connections, uri: string)
    requires high.nodeId > low.nodeId && c.high != c.low && Inv(s) && Enabled(s, e) && BothMirror(high, low, s, c)
    modifies high, low, high.links.Values, low.links.Values
    ensures BothMirror(high, low, Apply(s, (high.nodeId, low.nodeId), e), c)
    ensures fresh(Owned(high) - old(Owned(high))) && fresh(Owned(low) - old(Owned(low)))
  {
    hide Mirrors, Inv, Enabled, Closes, Owned;
    ghost var ids := (high.nodeId, low.nodeId);
    ghost var s' := Apply(s, ids, e);
    if Elsewhere(e, High) {
      OtherEnd(high, s, ids, High, low.nodeId, c, e);
    }
    if Elsewhere(e, Low) {
      OtherEnd(low, s, ids, Low, high.nodeId, c, e);
    }
    if !Elsewhere(e, High) {
      LinkIsOwn(high, low, low.nodeId);
      EventAt(high, s, ids, e, High, low.nodeId, c, uri, Owned(low));
      StillClosedBy(s, s', old(high.disconnects), high.disconnects, low.disconnects, c);
    } else if !Elsewhere(e, Low) {
      LinkIsOwn(low, high, high.nodeId);
      EventAt(low, s, ids, e, Low, high.nodeId, c, uri, Owned(high));
      StillClosedBy(s, s', old(low.disconnects), low.disconnects, high.disconnects, c);
    }
  }

  lemma NothingCloses(high: CalvinNetwork, low: CalvinNetwork, c: Connections)
    requires BothMirror(high, low, INIT, c)
    ensures Owned(high) == high.links.Values && Owned(low) == low.links.Values
  {
  }

  /** Any run of the two ends is a run of the two networks. */
  method Run(high: CalvinNetwork, low: CalvinNetwork, events: seq<Event>, c: Connections, uri: string)
    requires high.nodeId > low.nodeId && c.high != c.low && BothMirror(high, low, INIT, c)
    requires IsRun(INIT, (high.nodeId, low.nodeId), events)
    modifies high, low, high.links.Values, low.links.Values
    ensures BothMirror(high, low, Final(INIT, (high.nodeId, low.nodeId), events), c)
    ensures Settled(high, low, Final(INIT, (high.nodeId, low.nodeId), events), c)
  {
    hide Mirrors, Settled, ClosedBy;
    NothingCloses(high, low, c);
    var k := 0;
    ghost var ids, s := (high.nodeId, low.nodeId), INIT;
    assert events[0..] == events;
    while k < |events|
      invariant k <= |events| && Inv(s) && IsRun(s, ids, events[k..])
      invariant Final(s, ids, events[k..]) == Final(INIT, ids, events)
      invariant BothMirror(high, low, s, c)
      invariant fresh(Owned(high) - old(Owned(high))) && fresh(Owned(low) - old(Owned(low)))
    {
      assert events[k..][0] == events[k] && events[k..][1..] == events[k + 1..];
      Step(s, ids, events[k]);
      OneEvent(high, low, s, events[k], c, uri);
      s := Apply(s, ids, events[k]);
      k := k + 1;
    }
    RunSettles(high, low, events, c);
  }

  /** Where the connection of the higher node has finished, the link uses it; and when nothing is
      pending both links use the same connection, if there is any. */
  ghost predicate Settled(high: CalvinNetwork, low: CalvinNetwork, s: System, c: Connections)
    reads high, high.links.Values, low, low.links.Values
  {
    && (High in s.high.finished ==> high.Uses(low.nodeId, c.high))
    && (High in s.low.finished ==> low.Uses(high.nodeId, c.high))
    && (Quiet(s) && s.started != {} ==>
         var used := if High in s.started then c.high
           else c.low; high.Uses(low.nodeId, used) && low.Uses(high.nodeId, used))
  }

  lemma RunSettles(high: CalvinNetwork, low: CalvinNetwork, events: seq<Event>, c: Connections)
    requires high.nodeId > low.nodeId && IsRun(INIT, (high.nodeId, low.nodeId), events)
    requires BothMirror(high, low, Final(INIT, (high.nodeId, low.nodeId), events), c)
    ensures Settled(high, low, Final(INIT, (high.nodeId, low.nodeId), events), c)
  {
    var ids := (high.nodeId, low.nodeId);
    var s := Final(INIT, ids, events);
    RunKeepsInv(INIT, ids, events);
    assert EndOk(s, High) && EndOk(s, Low);
    if Quiet(s) {
      EndsAgree(ids, events);
      assert s.started != {} ==> High in s.started || Low in s.started by {
        if side :| side in s.started { assert side == High || side == Low; }
      }
    }
  }
}
