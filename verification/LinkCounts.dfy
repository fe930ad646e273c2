/** Counting links: for the ports of actors, for the deployed application, and while it is connected. */
module LinkCounts {
  import opened GraphSyntax

  datatype Direction = Inward | Outward

  /** A port of an actor. */
  datatype Port = Port(actor: string, port: string, direction: Direction)

  datatype Count = Count(port: Port, peers: nat)

  /** The destinations of the connections that leave a port. */
  datatype Connections = Connections(source: string, destinations: seq<string>)

  /** The two ends of a link between real ports. */
  function InEnd(l: Link): Port
    requires l.Crossing()
  {
    Port(l.inport.actor, l.inport.port, Inward)
  }

  function OutEnd(l: Link): Port
    requires l.Crossing()
  {
    Port(l.outport.actor, l.outport.port, Outward)
  }

  predicate AllCrossing(links: seq<Link>) {
    forall i :: 0 <= i < |links| ==> links[i].Crossing()
  }

  /** How many links there are at a port. */
  function LinksAt(links: seq<Link>, p: Port): nat
    requires AllCrossing(links)
  {
    if links == [] then 0
    else LinksAt(links[..|links| - 1], p) + (if InEnd(links[|links| - 1]) == p then 1 else 0) +
         (if OutEnd(links[|links| - 1]) == p then 1 else 0)
  }

  /** One more link at the port. */
  function Increment(counts: seq<Count>, p: Port): seq<Count> {
    if counts == [] then [Count(p, 1)]
    else if counts[0].port == p then [Count(p, counts[0].peers + 1)] + counts[1..]
    else [counts[0]] + Increment(counts[1..], p)
  }

  function Peers(counts: seq<Count>, p: Port): nat {
    if counts == [] then 0 else if counts[0].port == p then counts[0].peers else Peers(counts[1..], p)
  }

  function Total(counts: seq<Count>, direction: Direction): nat {
    if counts == [] then 0
    else (if counts[0].port.direction == direction then counts[0].peers else 0) + Total(counts[1..], direction)
  }

  lemma {:induction false} IncrementAdds(counts: seq<Count>, p: Port)
    ensures forall q :: Peers(Increment(counts, p), q) == Peers(counts, q) + if q == p then 1 else 0
    ensures forall d :: Total(Increment(counts, p), d) == Total(counts, d) + if d == p.direction then 1 else 0
  {
    if counts != [] && counts[0].port != p {
      IncrementAdds(counts[1..], p);
    }
  }

  /** The links that arrive at a port, and those that leave one, by position. */
  function Arriving(links: seq<Link>, actor: string, port: string): set<int> {
    set i | 0 <= i < |links| && links[i].inport == In(actor, port)
  }

  function Leaving(links: seq<Link>, actor: string, port: string): set<int> {
    set i | 0 <= i < |links| && links[i].outport == Out(actor, port)
  }

  /** Links are counted at the port where they arrive and at the port that they leave. */
  lemma {:induction false} LinksAtExactly(links: seq<Link>, actor: string, port: string)
    requires AllCrossing(links)
    ensures LinksAt(links, Port(actor, port, Inward)) == |Arriving(links, actor, port)|
    ensures LinksAt(links, Port(actor, port, Outward)) == |Leaving(links, actor, port)|
  {
    if links != [] {
      var n := |links| - 1;
      hide Arriving, Leaving;
      LinksAtExactly(links[..n], actor, port);
      OneMoreLink(links, actor, port);
    }
  }

  lemma OneMoreLink(links: seq<Link>, actor: string, port: string)
    requires links != []
    ensures var front, last := links[..|links| - 1], links[|links| - 1];
      && |Arriving(links, actor, port)| ==
         |Arriving(front, actor, port)| + (if last.inport == In(actor, port) then 1 else 0)
      && |Leaving(links, actor, port)| ==
         |Leaving(front, actor, port)| + (if last.outport == Out(actor, port) then 1 else 0)
  {
    var n := |links| - 1;
    assert Arriving(links, actor, port) ==
           Arriving(links[..n], actor, port) + if links[n].inport == In(actor, port) then {n} else {};
    assert Leaving(links, actor, port) ==
           Leaving(links[..n], actor, port) + if links[n].outport == Out(actor, port) then {n} else {};
  }

  class CoalesceProperties {
    var counter: seq<Count>

    constructor ()
      ensures counter == []
    {
      counter := [];
    }

    /** Every port is told how many links there are at it; inward and outward, the counts add up to the links. */
    method Process(links: seq<Link>)
      requires AllCrossing(links)
      modifies this
      ensures forall p :: Peers(counter, p) == LinksAt(links, p)
      ensures forall actor, port ::
                && Peers(counter, Port(actor, port, Inward)) == |Arriving(links, actor, port)|
                && Peers(counter, Port(actor, port, Outward)) == |Leaving(links, actor, port)|
      ensures Total(counter, Inward) == Total(counter, Outward) == |links|
    {
      counter := [];
      var k := 0;
      while k < |links|
        invariant k <= |links| && forall p :: Peers(counter, p) == LinksAt(links[..k], p)
        invariant Total(counter, Inward) == Total(counter, Outward) == k
      {
        assert links[..k + 1][..k] == links[..k];
        IncrementAdds(counter, InEnd(links[k]));
        counter := Increment(counter, InEnd(links[k]));
        IncrementAdds(counter, OutEnd(links[k]));
        counter := Increment(counter, OutEnd(links[k]));
        k := k + 1;
      }
      assert links[..k] == links;
      forall actor, port
        ensures LinksAt(links, Port(actor, port, Inward)) == |Arriving(links, actor, port)|
        ensures LinksAt(links, Port(actor, port, Outward)) == |Leaving(links, actor, port)|
      {
        LinksAtExactly(links, actor, port);
      }
    }
  }

  /* ----- the connections of the deployed application ----- */

  function Name(actor: string, port: string): string {
    actor + "." + port
  }

  function Append(connections: seq<Connections>, source: string, destination: string): seq<Connections> {
    if connections == [] then [Connections(source, [destination])]
    else if connections[0].source == source then
         [Connections(source, connections[0].destinations + [destination])] + connections[1..]
    else [connections[0]] + Append(connections[1..], source, destination)
  }

  function Destinations(connections: seq<Connections>, source: string): seq<string> {
    if connections == [] then [] else if connections[0].source == source then connections[0].destinations
      else Destinations(connections[1..], source)
  }

  function TotalConnections(connections: seq<Connections>): nat {
    if connections == [] then 0 else |connections[0].destinations| + TotalConnections(connections[1..])
  }

  lemma {:induction false} AppendAdds(connections: seq<Connections>, source: string, destination: string)
    ensures forall s :: Destinations(Append(connections, source, destination), s) ==
              Destinations(connections, s) + if s == source then [destination] else []
    ensures TotalConnections(Append(connections, source, destination)) == TotalConnections(connections) + 1
  {
    if connections != [] && connections[0].source != source {
      AppendAdds(connections[1..], source, destination);
    }
  }

  /** Where the links that leave a port go, in order. */
  function Targets(links: seq<Link>, source: string): seq<string>
    requires AllCrossing(links)
  {
    if links == [] then []
    else
      var l := links[|links| - 1];
      Targets(links[..|links| - 1], source) + if Name(l.outport.actor, l.outport.port) == source then
        [Name(l.inport.actor, l.inport.port)] else []
  }

  /** The link starts at the port with this name, the actor and the port joined by a dot. */
  predicate StartsAt(l: Link, source: string)
    requires l.Crossing()
  {
    l.outport.actor + "." + l.outport.port == source
  }

  /** The name of the port where the link ends. */
  function EndOf(l: Link): string
    requires l.Crossing()
  {
    l.inport.actor + "." + l.inport.port
  }

  /** The positions of the links that start at a port, in order. */
  ghost function Positions(links: seq<Link>, source: string): seq<nat>
    requires AllCrossing(links)
  {
    if links == [] then []
    else
      var n := |links| - 1;
      Positions(links[..n], source) + if StartsAt(links[n], source) then [n] else []
  }

  ghost predicate Increasing(at: seq<nat>, bound: nat) {
    (forall i, j :: 0 <= i < j < |at| ==> at[i] < at[j]) && forall i :: 0 <= i < |at| ==> at[i] < bound
  }

  lemma {:induction false} PositionsAre(links: seq<Link>, source: string)
    requires AllCrossing(links)
    ensures Increasing(Positions(links, source), |links|)
    ensures forall k :: k in Positions(links, source) <==> 0 <= k < |links| && StartsAt(links[k], source)
  {
    hide StartsAt;
    if links != [] {
      var n := |links| - 1;
      PositionsAre(links[..n], source);
      forall k ensures k in Positions(links, source) <==> 0 <= k < |links| && StartsAt(links[k], source) {
        assert 0 <= k < n ==> links[..n][k] == links[k];
      }
    }
  }

  /** Every link from the port has one destination in the list, in the order of the links: the name of the
      port where it ends. */
  lemma {:induction false} TargetsExactly(links: seq<Link>, source: string)
    requires AllCrossing(links)
    ensures Increasing(Positions(links, source), |links|)
    ensures forall k :: k in Positions(links, source) <==> 0 <= k < |links| && StartsAt(links[k], source)
    ensures |Targets(links, source)| == |Positions(links, source)|
    ensures forall i :: 0 <= i < |Positions(links, source)| ==>
              Targets(links, source)[i] == EndOf(links[Positions(links, source)[i]])
  {
    PositionsAre(links, source);
    if links != [] {
      var n := |links| - 1;
      var front := links[..n];
      TargetsExactly(front, source);
      NameIs(links[n], source);
      hide Name, StartsAt, EndOf;
      var before := Positions(front, source);
      assert Positions(links, source) == before + if StartsAt(links[n], source) then [n] else [];
      assert Targets(links, source) ==
               Targets(front, source) + if StartsAt(links[n], source) then [EndOf(links[n])] else [];
      forall i | 0 <= i < |Positions(links, source)|
        ensures Targets(links, source)[i] == EndOf(links[Positions(links, source)[i]])
      {
        assert i < |before| ==> before[i] < n && front[before[i]] == links[before[i]];
      }
    }
  }

  lemma NameIs(l: Link, source: string)
    requires l.Crossing()
    ensures Name(l.inport.actor, l.inport.port) == EndOf(l)
    ensures Name(l.outport.actor, l.outport.port) == source <==> StartsAt(l, source)
  {
  }

  class AppInfo {
    var connections: seq<Connections>

    constructor ()
      ensures connections == []
    {
      connections := [];
    }

    method Process(links: seq<Link>)
      requires AllCrossing(links)
      modifies this
      ensures forall s :: Destinations(connections, s) == Targets(links, s)
      ensures TotalConnections(connections) == |links|
    {
      connections := [];
      var k := 0;
      while k < |links|
        invariant k <= |links| && TotalConnections(connections) == k
        invariant forall s :: Destinations(connections, s) == Targets(links[..k], s)
      {
        var l := links[k];
        assert links[..k + 1][..k] == links[..k];
        AppendAdds(connections, Name(l.outport.actor, l.outport.port), Name(l.inport.actor, l.inport.port));
        connections := Append(connections, Name(l.outport.actor, l.outport.port), Name(l.inport.actor, l.inport.port));
        k := k + 1;
      }
      assert links[..k] == links;
    }
  }

  /** Names of ports can be told apart if no actor has a dot in its name. */
  lemma NamesDiffer(a: string, p: string, b: string, q: string)
    requires '.' !in a && '.' !in b && Name(a, p) == Name(b, q)
    ensures a == b && p == q
  {
    var name := Name(a, p);
    assert name[|a|] == '.' && name[..|a|] == a && name[|a| + 1..] == p;
    assert name == b + "." + q && name[|b|] == '.' && name[..|b|] == b && name[|b| + 1..] == q;
    DotInside(a, b, name);
    DotInside(b, a, name);
  }

  lemma DotInside(a: string, b: string, name: string)
    requires |a| < |name| && name[|a|] == '.' && |b| <= |name| && name[..|b|] == b
    ensures |a| < |b| ==> '.' in b
  {
    if |a| < |b| {
      assert b[|a|] == '.';
    }
  }

  /** A port has as many peers as there are connections from it. */
  lemma {:induction false} PeersAreDestinations(links: seq<Link>, actor: string, port: string)
    requires AllCrossing(links) && '.' !in actor && forall i :: 0 <= i < |links| ==> '.' !in links[i].outport.actor
    ensures LinksAt(links, Port(actor, port, Outward)) == |Targets(links, Name(actor, port))|
  {
    if links != [] {
      var l := links[|links| - 1];
      PeersAreDestinations(links[..|links| - 1], actor, port);
      if Name(l.outport.actor, l.outport.port) == Name(actor, port) {
        NamesDiffer(l.outport.actor, l.outport.port, actor, port);
      }
    }
  }

  /** The deployment waits for one reply for every connection. */
  class Deployer {
    var connectionCount: nat
    var connectionOk: bool
    /** Whether it went on, and how often. */
    var finished: nat
    ghost var replies: nat
    ghost const total: nat
    ghost var failures: nat

    constructor (connections: seq<Connections>)
      ensures Valid() && total == TotalConnections(connections) && replies == 0 && failures == 0
    {
      var sum, k := 0, 0;
      while k < |connections|
        invariant k <= |connections| && TotalConnections(connections) == sum + TotalConnections(connections[k..])
      {
        assert connections[k..][1..] == connections[k + 1..];
        sum := sum + |connections[k].destinations|;
        k := k + 1;
      }
      connectionCount, connectionOk, finished := sum, true, 0;
      replies, total, failures := 0, TotalConnections(connections), 0;
    }

    /** It goes on exactly once, with the last reply, and knows whether a connection failed. */
    ghost predicate Valid()
      reads this
    {
      && replies <= total && connectionCount == total - replies && failures <= replies
      && (connectionOk <==> failures == 0)
      && finished == if replies == total && total > 0 then 1 else 0
    }

    method WaitForAllConnections(ok: bool)
      requires Valid() && replies < total
      modifies this
      ensures Valid() && replies == old(replies) + 1 && failures == old(failures) + if ok then 0 else 1
      ensures finished == (if replies == total then 1 else 0) && (connectionOk <==> failures == 0)
    {
      connectionCount := connectionCount - 1;
      if !ok {
        connectionOk := false;
      }
      replies, failures := replies + 1, failures + if ok then 0 else 1;
      if connectionCount == 0 {
        finished := finished + 1;
      }
    }
  }
}
