/** What Flatten does to the links when one nested block is dissolved into the block
    around it, as a function of the two link lists. */
module Splicing {
  import opened GraphSyntax

  ghost predicate UsesIn(links: seq<Link>, ns: string, port: string) {
    exists q :: q in links && q.inport == In(ns, port)
  }

  ghost predicate UsesOut(links: seq<Link>, ns: string, port: string) {
    exists q :: q in links && q.outport == Out(ns, port)
  }

  ghost predicate FromHull(links: seq<Link>, port: string) {
    exists l :: l in links && l.outport == InternalOut(port)
  }

  ghost predicate ToHull(links: seq<Link>, port: string) {
    exists l :: l in links && l.inport == InternalIn(port)
  }

  /** An inner link that the rewiring has replaced: it starts or ends at a hull port
      that some link outside is attached to. */
  ghost predicate ConsumedInside(l: Link, ns: string, outer: seq<Link>) {
    || (l.outport.InternalOut? && UsesIn(outer, ns, l.outport.port))
    || (l.inport.InternalIn? && UsesOut(outer, ns, l.inport.port))
  }

  /** An outer link that the rewiring has replaced. */
  ghost predicate ConsumedOutside(q: Link, ns: string, inner: seq<Link>) {
    || (q.inport.In? && q.inport.actor == ns && FromHull(inner, q.inport.port))
    || (q.outport.Out? && q.outport.actor == ns && ToHull(inner, q.outport.port))
  }

  /** The links of the enclosing block that remain its own. */
  ghost function OuterRest(outer: seq<Link>, ns: string, inner: seq<Link>): seq<Link> {
    if outer == [] then []
    else (if ConsumedOutside(outer[0], ns, inner) then [] else [outer[0]]) + OuterRest(outer[1..], ns, inner)
  }

  /** The links of the dissolved block that are moved out as they are. */
  ghost function InnerRest(inner: seq<Link>, ns: string, outer: seq<Link>): seq<Link> {
    if inner == [] then []
    else (if ConsumedInside(inner[0], ns, outer) then [] else [PromoteLink(ns, inner[0])]) +
         InnerRest(inner[1..], ns, outer)
  }

  /** The links that replace the inner link l. */
  function Rewired(l: Link, ns: string, outer: seq<Link>): seq<Link> {
    (if l.outport.InternalOut? then ThroughInport(outer, ns, l.outport.port, PromoteIn(ns, l.inport)) else [])
    + (if l.inport.InternalIn? then ThroughOutport(outer, ns, l.inport.port, PromoteOut(ns, l.outport)) else [])
  }

  function ThroughInport(outer: seq<Link>, ns: string, port: string, i: InPort): seq<Link> {
    if outer == [] then []
    else (if outer[0].inport == In(ns, port) then [Link(outer[0].outport, i)] else [])
         + ThroughInport(outer[1..], ns, port, i)
  }

  function ThroughOutport(outer: seq<Link>, ns: string, port: string, o: OutPort): seq<Link> {
    if outer == [] then []
    else (if outer[0].outport == Out(ns, port) then [Link(o, outer[0].inport)] else [])
         + ThroughOutport(outer[1..], ns, port, o)
  }

  function AllRewired(inner: seq<Link>, ns: string, outer: seq<Link>): seq<Link> {
    if inner == [] then [] else Rewired(inner[0], ns, outer) + AllRewired(inner[1..], ns, outer)
  }

  /** The links of the enclosing block after the block named ns has been dissolved. */
  ghost function Splice(outer: seq<Link>, ns: string, inner: seq<Link>): seq<Link> {
    OuterRest(outer, ns, inner) + (InnerRest(inner, ns, outer) + AllRewired(inner, ns, outer))
  }

  /** The links of a block after all its nested blocks have been dissolved, in order. */
  ghost function FlatLinks(b: Block): seq<Link>
    decreases b, 1
  {
    SpliceAll(b.links, b.blocks)
  }

  ghost function SpliceAll(links: seq<Link>, blocks: seq<Block>): seq<Link>
    decreases blocks
  {
    if blocks == [] then links
    else SpliceAll(Splice(links, blocks[0].ns, FlatLinks(blocks[0])), blocks[1..])
  }
}
