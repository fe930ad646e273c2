/** The CalvinScript tree as values: a block holds actors, links and the nested
    blocks that component instances have been expanded to. */
module GraphSyntax {

  type Literal = string

  datatype Arg = Value(value: Literal) | Id(ident: string)

  datatype NamedArg = NamedArg(ident: string, arg: Arg)

  datatype Actor = Actor(ident: string, actorType: string, args: seq<NamedArg>)

  /** A port that a link leaves from: the outport of an actor or of a component
      instance, or the inside of an inport on the enclosing component's hull. */
  datatype OutPort = Out(actor: string, port: string) | InternalOut(port: string)

  /** A port that a link arrives at: the inport of an actor or of a component
      instance, or the inside of an outport on the enclosing component's hull. */
  datatype InPort = In(actor: string, port: string) | InternalIn(port: string)

  datatype Link = Link(outport: OutPort, inport: InPort) {
    /** Both ends are ports seen by name, none is the inside of a hull. */
    predicate Crossing() {
      outport.Out? && inport.In?
    }
  }

  datatype Block = Block(ns: string, args: map<string, Arg>, actors: seq<Actor>, links: seq<Link>, blocks: seq<Block>)

  /** An identifier of the source language: non-empty and without ':'. */
  predicate Identifier(name: string) {
    name != "" && ':' !in name
  }

  /** A name seen from one level further out. */
  function Promote(ns: string, name: string): string {
    if name != "" then ns + ":" + name else ns
  }

  function PromoteOut(ns: string, o: OutPort): OutPort {
    match o
    case Out(actor, port) => Out(Promote(ns, actor), port)
    case InternalOut(_) => o
  }

  function PromoteIn(ns: string, i: InPort): InPort {
    match i
    case In(actor, port) => In(Promote(ns, actor), port)
    case InternalIn(_) => i
  }

  function PromoteLink(ns: string, l: Link): Link {
    Link(PromoteOut(ns, l.outport), PromoteIn(ns, l.inport))
  }

  lemma PromotedIsNoIdentifier(ns: string, name: string)
    requires name != ""
    ensures !Identifier(Promote(ns, name))
    ensures Promote(ns, name) != ""
  {
    assert Promote(ns, name)[|ns|] == ':';
  }
}
