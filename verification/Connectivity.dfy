/** What the links of a nested block mean: which ports they join once the hulls of
    the nested instances are looked through, and how often. */
module Connectivity {
  import opened GraphSyntax

  /** One link for every way of walking from an outport to an inport of this block's
      own level or deeper, only ever passing through hull ports of nested blocks. */
  function Resolve(b: Block): seq<Link>
    decreases b, 2
  {
    Chase(b.links, b.blocks) + Inside(b.blocks)
  }

  function Chase(links: seq<Link>, blocks: seq<Block>): seq<Link>
    decreases blocks, 1, |links|
  {
    if links == [] then []
    else Cross(OutEnds(links[0].outport, blocks), InEnds(links[0].inport, blocks)) + Chase(links[1..], blocks)
  }

  /** The connections that stay inside one of the nested blocks. */
  function Inside(blocks: seq<Block>): seq<Link>
    decreases blocks, 1
  {
    if blocks == [] then []
    else Within(blocks[0].ns, Resolve(blocks[0])) + Inside(blocks[1..])
  }

  /** Where data leaving through this port really comes from. */
  function OutEnds(o: OutPort, blocks: seq<Block>): seq<OutPort>
    decreases blocks, 0
  {
    if o.InternalOut? || blocks == [] then [o]
    else if blocks[0].ns == o.actor then Sources(blocks[0].ns, o.port, Resolve(blocks[0]))
    else OutEnds(o, blocks[1..])
  }

  /** Where data arriving at this port really goes. */
  function InEnds(i: InPort, blocks: seq<Block>): seq<InPort>
    decreases blocks, 0
  {
    if i.InternalIn? || blocks == [] then [i]
    else if blocks[0].ns == i.actor then Sinks(blocks[0].ns, i.port, Resolve(blocks[0]))
    else InEnds(i, blocks[1..])
  }

  function Cross(outs: seq<OutPort>, ins: seq<InPort>): seq<Link> {
    if outs == [] then [] else Fan(outs[0], ins) + Cross(outs[1..], ins)
  }

  function Fan(o: OutPort, ins: seq<InPort>): seq<Link> {
    if ins == [] then [] else [Link(o, ins[0])] + Fan(o, ins[1..])
  }

  function Within(ns: string, links: seq<Link>): seq<Link> {
    if links == [] then []
    else (if links[0].Crossing() then [PromoteLink(ns, links[0])] else []) + Within(ns, links[1..])
  }

  function Sources(ns: string, port: string, links: seq<Link>): seq<OutPort> {
    if links == [] then []
    else (if links[0].inport == InternalIn(port) then [PromoteOut(ns, links[0].outport)] else [])
         + Sources(ns, port, links[1..])
  }

  function Sinks(ns: string, port: string, links: seq<Link>): seq<InPort> {
    if links == [] then []
    else (if links[0].outport == InternalOut(port) then [PromoteIn(ns, links[0].inport)] else [])
         + Sinks(ns, port, links[1..])
  }
}
