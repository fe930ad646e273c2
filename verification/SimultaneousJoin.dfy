/** Two nodes that connect to each other at the same time, and the link each of them ends up with. */
module SimultaneousJoin {
  import opened Options

  /** Node identities; only their order matters. */
  type NodeId = int

  /** What a node does with a finished connection to a peer. */
  datatype Choice =
    | Insert
    | Wake
    /** The new connection takes over; the old one is closed later, or not at all. */
    | Replace
    | ReplaceOriginator
    /** The new connection is closed. */
    | Drop
    | DropOriginator
    | Ignore

  /** One link for each peer: among two connections, the one that the node with the highest id
      asked for is used. */
  function Choose(node: NodeId, peer: NodeId, hasLink: bool, sleeping: bool, originator: bool): Choice {
    if !hasLink then Insert
    else if sleeping then Wake
    else if originator && node > peer then ReplaceOriginator
    else if originator && node < peer then DropOriginator
    else if !originator && node > peer then Drop
    else if !originator && node < peer then Replace
    else Ignore
  }

  /* ----- two nodes ----- */

  /** The node with the higher id, and the one with the lower id; a connection is named after the
      node that asked for it. */
  datatype Side = High | Low

  function Other(side: Side): Side {
    if side.High? then Low else High
  }

  /** One end: the connection its link uses, those that have finished there, and those it knows
      to be disconnected. */
  datatype End = End(link: Option<Side>, finished: set<Side>, gone: set<Side>)

  datatype System = System(high: End, low: End, started: set<Side>, closed: set<Side>, timers: set<(Side, Side)>)

  datatype Event =
    | Start(conn: Side)
    | Finish(at: Side, conn: Side)
    | Disconnected(at: Side, conn: Side)
    | CloseOld(at: Side, conn: Side)

  function At(s: System, side: Side): End {
    if side.High? then s.high else s.low
  }

  function WithEnd(s: System, side: Side, end: End): System {
    if side.High? then s.(high := end) else s.(low := end)
  }

  /** Each node asks for one connection; each end first finishes a connection and then, if somebody
      has closed it, sees it disconnected. */
  predicate Enabled(s: System, e: Event) {
    match e
    case Start(conn) => conn !in s.started
    case Finish(at, conn) => conn in s.started && conn !in At(s, at).finished
    case Disconnected(at, conn) => conn in s.closed && conn in At(s, at).finished && conn !in At(s, at).gone
    case CloseOld(at, conn) => (at, conn) in s.timers
  }

  function Id(ids: (NodeId, NodeId), side: Side): NodeId {
    if side.High? then ids.0 else ids.1
  }

  function FinishAt(s: System, ids: (NodeId, NodeId), at: Side, conn: Side): System {
    var end := At(s, at);
    var end' := end.(finished := end.finished + {conn});
    match Choose(Id(ids, at), Id(ids, Other(at)), end.link.Some?, false, conn == at)
    case Insert => WithEnd(s, at, end'.(link := Some(conn)))
    case ReplaceOriginator => WithEnd(s, at, end'.(link := Some(conn)))
    case Replace =>
      var timers := if end.link.Some? then s.timers + {(at, end.link.value)} else s.timers;
      WithEnd(s, at, end'.(link := Some(conn))).(timers := timers)
    case Drop => WithEnd(s, at, end').(closed := s.closed + {conn})
    case DropOriginator => WithEnd(s, at, end').(closed := s.closed + {conn})
    case _ => WithEnd(s, at, end')
  }

  function Apply(s: System, ids: (NodeId, NodeId), e: Event): System {
    match e
    case Start(conn) => s.(started := s.started + {conn})
    case Finish(at, conn) => FinishAt(s, ids, at, conn)
    case Disconnected(at, conn) =>
      var end := At(s, at);
      WithEnd(s, at, end.(gone := end.gone + {conn}, link := if end.link == Some(conn) then None else end.link))
    case CloseOld(at, conn) => s.(closed := s.closed + {conn}, timers := s.timers - {(at, conn)})
  }

  const INIT := System(End(None, {}, {}), End(None, {}, {}), {}, {}, {})

  ghost predicate IsRun(s: System, ids: (NodeId, NodeId), events: seq<Event>)
    decreases |events|
  {
    events != [] ==> Enabled(s, events[0]) && IsRun(Apply(s, ids, events[0]), ids, events[1..])
  }

  ghost function Final(s: System, ids: (NodeId, NodeId), events: seq<Event>): System
    decreases |events|
  {
    if events == [] then s else Final(Apply(s, ids, events[0]), ids, events[1..])
  }

  /** No event is enabled but the start of a connection. */
  predicate Quiet(s: System) {
    && (forall at, conn :: !Enabled(s, Finish(at, conn)) && !Enabled(s, Disconnected(at, conn)))
    && s.timers == {}
  }

  /* ----- what every event keeps ----- */

  ghost predicate EndOk(s: System, side: Side) {
    var end := At(s, side);
    && end.finished <= s.started
    && (High in end.finished ==> end.link == Some(High))
    && (High !in end.finished ==> end.link == if Low in end.finished && Low !in end.gone then Some(Low) else None)
    && end.gone <= s.closed * end.finished
  }

  /** The connection of the lower node is closed, or will be, once the lower end has both. */
  ghost predicate Inv(s: System) {
    && EndOk(s, High) && EndOk(s, Low)
    && s.closed <= {Low}
    && (Low in s.closed || s.timers != {} ==> High in s.started)
    && (forall t :: t in s.timers ==> t == (Low, Low) && High in s.low.finished)
    && (High in s.low.finished && Low in s.low.finished ==> Low in s.closed || (Low, Low) in s.timers)
  }

  lemma FinishStep(s: System, ids: (NodeId, NodeId), at: Side, conn: Side)
    requires ids.0 > ids.1 && Inv(s) && Enabled(s, Finish(at, conn))
    ensures Inv(FinishAt(s, ids, at, conn))
  {
  }

  lemma DisconnectedStep(s: System, ids: (NodeId, NodeId), at: Side, conn: Side)
    requires ids.0 > ids.1 && Inv(s) && Enabled(s, Disconnected(at, conn))
    ensures Inv(Apply(s, ids, Disconnected(at, conn)))
  {
  }

  lemma Step(s: System, ids: (NodeId, NodeId), e: Event)
    requires ids.0 > ids.1 && Inv(s) && Enabled(s, e)
    ensures Inv(Apply(s, ids, e))
  {
    match e
    case Start(_) =>
    case Finish(at, conn) => FinishStep(s, ids, at, conn);
    case Disconnected(at, conn) => DisconnectedStep(s, ids, at, conn);
    case CloseOld(_, _) =>
  }

  lemma {:induction false} RunKeepsInv(s: System, ids: (NodeId, NodeId), events: seq<Event>)
    requires ids.0 > ids.1 && Inv(s) && IsRun(s, ids, events)
    ensures Inv(Final(s, ids, events))
    decreases |events|
  {
    if events != [] {
      Step(s, ids, events[0]);
      RunKeepsInv(Apply(s, ids, events[0]), ids, events[1..]);
    }
  }

  lemma {:induction false} FinishedStays(s: System, ids: (NodeId, NodeId), events: seq<Event>, side: Side, conn: Side)
    requires conn in At(s, side).finished
    ensures conn in At(Final(s, ids, events), side).finished
    decreases |events|
  {
    if events != [] {
      FinishedStays(Apply(s, ids, events[0]), ids, events[1..], side, conn);
    }
  }

  lemma {:induction false} FinalConcat(s: System, ids: (NodeId, NodeId), a: seq<Event>, b: seq<Event>)
    ensures Final(s, ids, a + b) == Final(Final(s, ids, a), ids, b)
    ensures IsRun(s, ids, a + b) <==> IsRun(s, ids, a) && IsRun(Final(s, ids, a), ids, b)
    decreases |a|
  {
    if a == [] {
      assert a + b == b;
    } else {
      assert (a + b)[1..] == a[1..] + b;
      FinalConcat(Apply(s, ids, a[0]), ids, a[1..], b);
    }
  }

  /** Once the connection of the higher node has finished at an end, the link of that end uses it
      ever after, whatever happens to the other connection. */
  lemma HighestIsKept(ids: (NodeId, NodeId), before: seq<Event>, after: seq<Event>, side: Side)
    requires ids.0 > ids.1 && IsRun(INIT, ids, before + after)
    requires High in At(Final(INIT, ids, before), side).finished
    ensures At(Final(INIT, ids, before + after), side).link == Some(High)
  {
    FinalConcat(INIT, ids, before, after);
    RunKeepsInv(INIT, ids, before + after);
    FinishedStays(Final(INIT, ids, before), ids, after, side, High);
  }

  /** When nothing is pending both ends use the same connection: that of the higher node if it asked
      for one, and the only one otherwise; and the other connection, if any, is closed at both ends. */
  lemma EndsAgree(ids: (NodeId, NodeId), events: seq<Event>)
    requires ids.0 > ids.1 && IsRun(INIT, ids, events) && Quiet(Final(INIT, ids, events))
    ensures var s := Final(INIT, ids, events);
            && s.high.link == s.low.link
            && s.high.link == (if High in s.started then Some(High) else if Low in s.started then Some(Low) else None)
            && (s.started == {High, Low} ==> Low in s.high.gone && Low in s.low.gone)
  {
    RunKeepsInv(INIT, ids, events);
    var s := Final(INIT, ids, events);
    assert forall at, conn :: !Enabled(s, Finish(at, conn)) && !Enabled(s, Disconnected(at, conn));
    forall side, conn | conn in s.started ensures conn in At(s, side).finished {
      assert !Enabled(s, Finish(side, conn));
    }
    if Low in s.closed {
      assert !Enabled(s, Disconnected(High, Low)) && !Enabled(s, Disconnected(Low, Low));
      assert Low in At(s, High).finished || Low !in s.started;
    }
  }
}
