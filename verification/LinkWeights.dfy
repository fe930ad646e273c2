/** Counting links with weights on their two ends: a calculus in which dissolving one
    block is a substitution of weights. */
module LinkWeights {
  import opened GraphSyntax
  import opened Connectivity
  import opened Splicing

  /* ----- weighted link counts: two link lists are permutations of each other
           exactly when every pair of weights gives them the same sum ----- */

  type OutWeight = OutPort -> int
  type InWeight = InPort -> int

  ghost function Sum(links: seq<Link>, f: OutWeight, g: InWeight): int {
    if links == [] then 0 else f(links[0].outport) * g(links[0].inport) + Sum(links[1..], f, g)
  }

  ghost function SumOut(outs: seq<OutPort>, f: OutWeight): int {
    if outs == [] then 0 else f(outs[0]) + SumOut(outs[1..], f)
  }

  ghost function SumIn(ins: seq<InPort>, g: InWeight): int {
    if ins == [] then 0 else g(ins[0]) + SumIn(ins[1..], g)
  }

  lemma {:induction false} SumConcat(a: seq<Link>, b: seq<Link>, f: OutWeight, g: InWeight)
    ensures Sum(a + b, f, g) == Sum(a, f, g) + Sum(b, f, g)
  {
    if a == [] {
      assert a + b == b;
    } else {
      assert (a + b)[1..] == a[1..] + b;
      SumConcat(a[1..], b, f, g);
    }
  }

  /** Sums only look at the weights of the ends that occur. */
  lemma {:induction false} SumCong(links: seq<Link>, f: OutWeight, g: InWeight, f': OutWeight, g': InWeight)
    requires forall l :: l in links ==> f(l.outport) * g(l.inport) == f'(l.outport) * g'(l.inport)
    ensures Sum(links, f, g) == Sum(links, f', g')
  {
    if links != [] {
      SumCong(links[1..], f, g, f', g');
    }
  }

  lemma {:induction false} SumOutConcat(a: seq<OutPort>, b: seq<OutPort>, f: OutWeight)
    ensures SumOut(a + b, f) == SumOut(a, f) + SumOut(b, f)
  {
    if a == [] {
      assert a + b == b;
    } else {
      assert (a + b)[1..] == a[1..] + b;
      SumOutConcat(a[1..], b, f);
    }
  }

  lemma {:induction false} SumInConcat(a: seq<InPort>, b: seq<InPort>, g: InWeight)
    ensures SumIn(a + b, g) == SumIn(a, g) + SumIn(b, g)
  {
    if a == [] {
      assert a + b == b;
    } else {
      assert (a + b)[1..] == a[1..] + b;
      SumInConcat(a[1..], b, g);
    }
  }

  lemma {:induction false} SumFan(o: OutPort, ins: seq<InPort>, f: OutWeight, g: InWeight)
    ensures Sum(Fan(o, ins), f, g) == f(o) * SumIn(ins, g)
  {
    if ins != [] {
      SumFan(o, ins[1..], f, g);
      assert Fan(o, ins)[1..] == Fan(o, ins[1..]);
    }
  }

  lemma {:induction false} SumCross(outs: seq<OutPort>, ins: seq<InPort>, f: OutWeight, g: InWeight)
    ensures Sum(Cross(outs, ins), f, g) == SumOut(outs, f) * SumIn(ins, g)
  {
    if outs != [] {
      SumFan(outs[0], ins, f, g);
      SumCross(outs[1..], ins, f, g);
      SumConcat(Fan(outs[0], ins), Cross(outs[1..], ins), f, g);
    }
  }

  /** The weight of everything that can be reached by starting at an outport. */
  ghost function OutThrough(blocks: seq<Block>, f: OutWeight): OutWeight {
    o => SumOut(OutEnds(o, blocks), f)
  }

  ghost function InThrough(blocks: seq<Block>, g: InWeight): InWeight {
    i => SumIn(InEnds(i, blocks), g)
  }

  lemma {:induction false} SumChase(links: seq<Link>, blocks: seq<Block>, f: OutWeight, g: InWeight)
    ensures Sum(Chase(links, blocks), f, g) == Sum(links, OutThrough(blocks, f), InThrough(blocks, g))
  {
    if links != [] {
      var l := links[0];
      SumCross(OutEnds(l.outport, blocks), InEnds(l.inport, blocks), f, g);
      SumChase(links[1..], blocks, f, g);
      SumConcat(Cross(OutEnds(l.outport, blocks), InEnds(l.inport, blocks)), Chase(links[1..], blocks), f, g);
    }
  }

  /* ----- the ends of inner links as seen from outside ----- */

  ghost function At(port: string): InWeight {
    i => if i == InternalIn(port) then 1 else 0
  }

  ghost function From(port: string): OutWeight {
    o => if o == InternalOut(port) then 1 else 0
  }

  ghost function Promoted(ns: string, f: OutWeight): OutWeight {
    o => f(PromoteOut(ns, o))
  }

  ghost function PromotedIn(ns: string, g: InWeight): InWeight {
    i => g(PromoteIn(ns, i))
  }

  ghost function OnlyOut(ns: string, f: OutWeight): OutWeight {
    (o: OutPort) => if o.Out? then f(PromoteOut(ns, o)) else 0
  }

  ghost function OnlyIn(ns: string, g: InWeight): InWeight {
    (i: InPort) => if i.In? then g(PromoteIn(ns, i)) else 0
  }

  lemma {:induction false} SumSources(ns: string, port: string, links: seq<Link>, f: OutWeight)
    ensures SumOut(Sources(ns, port, links), f) == Sum(links, Promoted(ns, f), At(port))
  {
    if links != [] {
      SumSources(ns, port, links[1..], f);
      var first := if links[0].inport == InternalIn(port) then [PromoteOut(ns, links[0].outport)] else [];
      SumOutConcat(first, Sources(ns, port, links[1..]), f);
    }
  }

  lemma {:induction false} SumSinks(ns: string, port: string, links: seq<Link>, g: InWeight)
    ensures SumIn(Sinks(ns, port, links), g) == Sum(links, From(port), PromotedIn(ns, g))
  {
    if links != [] {
      SumSinks(ns, port, links[1..], g);
      var first := if links[0].outport == InternalOut(port) then [PromoteIn(ns, links[0].inport)] else [];
      SumInConcat(first, Sinks(ns, port, links[1..]), g);
    }
  }

  lemma {:induction false} SumWithin(ns: string, links: seq<Link>, f: OutWeight, g: InWeight)
    ensures Sum(Within(ns, links), f, g) == Sum(links, OnlyOut(ns, f), OnlyIn(ns, g))
  {
    if links != [] {
      SumWithin(ns, links[1..], f, g);
      var first := if links[0].Crossing() then [PromoteLink(ns, links[0])] else [];
      SumConcat(first, Within(ns, links[1..]), f, g);
    }
  }

  /* ----- dissolving one block ----- */

  ghost predicate NoPassthrough(links: seq<Link>) {
    forall l :: l in links ==> l.outport.Out? || l.inport.In?
  }

  /** No link leads from the instance ns straight back to it. */
  ghost predicate NoSelfLink(links: seq<Link>, ns: string) {
    forall q :: q in links && q.outport.Out? && q.inport.In? && q.outport.actor == ns ==> q.inport.actor != ns
  }

  /** The hull ports of the instance ns that are linked outside are those linked inside. */
  ghost predicate Attached(outer: seq<Link>, ns: string, inner: seq<Link>) {
    && (forall p :: UsesIn(outer, ns, p) <==> FromHull(inner, p))
    && (forall p :: UsesOut(outer, ns, p) <==> ToHull(inner, p))
  }

  /** The outer weight of an outport when the ports of ns stand for what is behind them. */
  ghost function Behind(ns: string, inner: seq<Link>, f: OutWeight): OutWeight {
    (o: OutPort) => if o.Out? && o.actor == ns then Sum(inner, Promoted(ns, f), At(o.port)) else f(o)
  }

  ghost function BehindIn(ns: string, inner: seq<Link>, g: InWeight): InWeight {
    (i: InPort) => if i.In? && i.actor == ns then Sum(inner, From(i.port), PromotedIn(ns, g)) else g(i)
  }

  lemma {:induction false} SumRewiredSplit(inner: seq<Link>, ns: string, q: Link, outer: seq<Link>, f: OutWeight,
                                           g: InWeight)
    ensures Sum(AllRewired(inner, ns, [q] + outer), f, g)
         == Sum(AllRewired(inner, ns, [q]), f, g) + Sum(AllRewired(inner, ns, outer), f, g)
  {
    if inner != [] {
      SumRewiredSplit(inner[1..], ns, q, outer, f, g);
      var l := inner[0];
      SumConcat(Rewired(l, ns, [q] + outer), AllRewired(inner[1..], ns, [q] + outer), f, g);
      SumConcat(Rewired(l, ns, [q]), AllRewired(inner[1..], ns, [q]), f, g);
      SumConcat(Rewired(l, ns, outer), AllRewired(inner[1..], ns, outer), f, g);
      SumRewiredOneSplit(l, ns, q, outer, f, g);
    }
  }

  lemma {:induction false} SumRewiredOneSplit(l: Link, ns: string, q: Link, outer: seq<Link>, f: OutWeight, g: InWeight)
    ensures Sum(Rewired(l, ns, [q] + outer), f, g) == Sum(Rewired(l, ns, [q]), f, g) + Sum(Rewired(l, ns, outer), f, g)
  {
    assert ([q] + outer)[1..] == outer && [q][1..] == [];
    if l.outport.InternalOut? {
      var p, i := l.outport.port, PromoteIn(ns, l.inport);
      assert ThroughInport([q] + outer, ns, p, i) == ThroughInport([q], ns, p, i) + ThroughInport(outer, ns, p, i);
      SumConcat(ThroughInport([q], ns, p, i), ThroughInport(outer, ns, p, i), f, g);
    }
    if l.inport.InternalIn? {
      var p, o := l.inport.port, PromoteOut(ns, l.outport);
      assert ThroughOutport([q] + outer, ns, p, o) == ThroughOutport([q], ns, p, o) + ThroughOutport(outer, ns, p, o);
      SumConcat(ThroughOutport([q], ns, p, o), ThroughOutport(outer, ns, p, o), f, g);
    }
    forall xs | xs in [[q] + outer, [q], outer]
      ensures Sum(Rewired(l, ns, xs), f, g)
           == Sum(if l.outport.InternalOut? then ThroughInport(xs, ns, l.outport.port, PromoteIn(ns, l.inport))
                  else [], f, g)
            + Sum(if l.inport.InternalIn? then ThroughOutport(xs, ns, l.inport.port, PromoteOut(ns, l.outport))
                  else [], f, g)
    {
      SumConcat(if l.outport.InternalOut? then ThroughInport(xs, ns, l.outport.port, PromoteIn(ns, l.inport)) else [],
                if l.inport.InternalIn? then ThroughOutport(xs, ns, l.inport.port, PromoteOut(ns, l.outport))
                  else [], f, g);
    }
  }

  ghost function ViaInport(l: Link, ns: string, q: Link, f: OutWeight, g: InWeight): int {
    if q.inport.In? && q.inport.actor == ns
    then f(q.outport) * (From(q.inport.port)(l.outport) * PromotedIn(ns, g)(l.inport)) else 0
  }

  ghost function ViaOutport(l: Link, ns: string, q: Link, f: OutWeight, g: InWeight): int {
    if q.outport.Out? && q.outport.actor == ns
    then (Promoted(ns, f)(l.outport) * At(q.outport.port)(l.inport)) * g(q.inport) else 0
  }

  lemma SumRewiredLink(l: Link, ns: string, q: Link, f: OutWeight, g: InWeight)
    ensures Sum(Rewired(l, ns, [q]), f, g) == ViaInport(l, ns, q, f, g) + ViaOutport(l, ns, q, f, g)
  {
    var a := if l.outport.InternalOut? then ThroughInport([q], ns, l.outport.port, PromoteIn(ns, l.inport)) else [];
    var b := if l.inport.InternalIn? then ThroughOutport([q], ns, l.inport.port, PromoteOut(ns, l.outport)) else [];
    SumConcat(a, b, f, g);
    assert Sum(a, f, g) == ViaInport(l, ns, q, f, g) by {
      if l.outport.InternalOut? {
        SumThroughInport(l.outport.port, PromoteIn(ns, l.inport), ns, q, f, g);
      }
    }
    assert Sum(b, f, g) == ViaOutport(l, ns, q, f, g) by {
      if l.inport.InternalIn? {
        SumThroughOutport(l.inport.port, PromoteOut(ns, l.outport), ns, q, f, g);
      }
    }
  }

  lemma SumThroughInport(port: string, i: InPort, ns: string, q: Link, f: OutWeight, g: InWeight)
    ensures Sum(ThroughInport([q], ns, port, i), f, g) == if q.inport == In(ns, port) then f(q.outport) * g(i) else 0
  {
    assert ThroughInport([q][1..], ns, port, i) == [];
    SumOne(Link(q.outport, i), f, g);
  }

  lemma SumThroughOutport(port: string, o: OutPort, ns: string, q: Link, f: OutWeight, g: InWeight)
    ensures Sum(ThroughOutport([q], ns, port, o), f, g) == if q.outport == Out(ns, port) then f(o) * g(q.inport) else 0
  {
    assert ThroughOutport([q][1..], ns, port, o) == [];
    SumOne(Link(o, q.inport), f, g);
  }

  lemma SumOne(l: Link, f: OutWeight, g: InWeight)
    ensures Sum([l], f, g) == f(l.outport) * g(l.inport)
  {
    assert Sum([l][1..], f, g) == 0;
  }

  /** All links that replace the outer link q together. */
  lemma {:induction false} SumRewiredOne(inner: seq<Link>, ns: string, q: Link, f: OutWeight, g: InWeight)
    ensures Sum(AllRewired(inner, ns, [q]), f, g)
         == (if q.inport.In? && q.inport.actor == ns then f(q.outport) * BehindIn(ns, inner, g)(q.inport) else 0)
          + (if q.outport.Out? && q.outport.actor == ns then Behind(ns, inner, f)(q.outport) * g(q.inport) else 0)
  {
    if inner != [] {
      var l, rest := inner[0], inner[1..];
      assert inner == [l] + rest;
      SumRewiredOne(rest, ns, q, f, g);
      SumConcat(Rewired(l, ns, [q]), AllRewired(rest, ns, [q]), f, g);
      SumRewiredLink(l, ns, q, f, g);
      if q.inport.In? && q.inport.actor == ns {
        BehindInStep(l, rest, ns, q, f, g);
      }
      if q.outport.Out? && q.outport.actor == ns {
        BehindOutStep(l, rest, ns, q, f, g);
      }
    }
  }

  lemma BehindInStep(l: Link, rest: seq<Link>, ns: string, q: Link, f: OutWeight, g: InWeight)
    requires q.inport.In? && q.inport.actor == ns
    ensures f(q.outport) * BehindIn(ns, [l] + rest, g)(q.inport)
         == ViaInport(l, ns, q, f, g) + f(q.outport) * BehindIn(ns, rest, g)(q.inport)
  {
    var p := q.inport.port;
    assert ([l] + rest)[1..] == rest;
    Distribute(f(q.outport), From(p)(l.outport) * PromotedIn(ns, g)(l.inport), Sum(rest, From(p), PromotedIn(ns, g)));
  }

  lemma BehindOutStep(l: Link, rest: seq<Link>, ns: string, q: Link, f: OutWeight, g: InWeight)
    requires q.outport.Out? && q.outport.actor == ns
    ensures Behind(ns, [l] + rest, f)(q.outport) * g(q.inport)
         == ViaOutport(l, ns, q, f, g) + Behind(ns, rest, f)(q.outport) * g(q.inport)
  {
    var p := q.outport.port;
    assert ([l] + rest)[1..] == rest;
    Distribute(g(q.inport), Promoted(ns, f)(l.outport) * At(p)(l.inport), Sum(rest, Promoted(ns, f), At(p)));
  }

  lemma Distribute(a: int, b: int, c: int)
    ensures a * (b + c) == a * b + a * c
  {
  }

  /** The outer links, rewired or not, weigh what they weighed when the ports of ns
      stood for what is behind them. */
  lemma {:induction false} SumOuter(outer: seq<Link>, ns: string, inner: seq<Link>, f: OutWeight, g: InWeight)
    requires NoSelfLink(outer, ns)
    requires forall p :: UsesIn(outer, ns, p) ==> FromHull(inner, p)
    requires forall p :: UsesOut(outer, ns, p) ==> ToHull(inner, p)
    ensures Sum(OuterRest(outer, ns, inner), f, g) + Sum(AllRewired(inner, ns, outer), f, g)
         == Sum(outer, Behind(ns, inner, f), BehindIn(ns, inner, g))
  {
    if outer == [] {
      NothingRewired(inner, ns);
    } else {
      var q, rest := outer[0], outer[1..];
      assert outer == [q] + rest;
      assert q in outer;
      forall p ensures UsesIn(rest, ns, p) ==> UsesIn(outer, ns, p)
               ensures UsesOut(rest, ns, p) ==> UsesOut(outer, ns, p) {}
      SumOuter(rest, ns, inner, f, g);
      SumRewiredSplit(inner, ns, q, rest, f, g);
      SumRewiredOne(inner, ns, q, f, g);
      if q.inport.In? && q.inport.actor == ns {
        assert UsesIn(outer, ns, q.inport.port);
      } else if q.outport.Out? && q.outport.actor == ns {
        assert UsesOut(outer, ns, q.outport.port);
      }
      SumConcat(if ConsumedOutside(q, ns, inner) then [] else [q], OuterRest(rest, ns, inner), f, g);
    }
  }

  lemma {:induction false} NothingRewired(inner: seq<Link>, ns: string)
    ensures AllRewired(inner, ns, []) == []
  {
    if inner != [] {
      NothingRewired(inner[1..], ns);
    }
  }

  lemma {:induction false} SumInner(inner: seq<Link>, ns: string, outer: seq<Link>, f: OutWeight, g: InWeight)
    requires NoPassthrough(inner)
    requires forall p :: FromHull(inner, p) ==> UsesIn(outer, ns, p)
    requires forall p :: ToHull(inner, p) ==> UsesOut(outer, ns, p)
    ensures Sum(InnerRest(inner, ns, outer), f, g) == Sum(inner, OnlyOut(ns, f), OnlyIn(ns, g))
  {
    if inner != [] {
      var l, rest := inner[0], inner[1..];
      assert l in inner;
      forall p ensures FromHull(rest, p) ==> FromHull(inner, p)
               ensures ToHull(rest, p) ==> ToHull(inner, p) {}
      SumInner(rest, ns, outer, f, g);
      if l.outport.InternalOut? {
        assert FromHull(inner, l.outport.port);
      } else if l.inport.InternalIn? {
        assert ToHull(inner, l.inport.port);
      }
      SumConcat(if ConsumedInside(l, ns, outer) then [] else [PromoteLink(ns, l)], InnerRest(rest, ns, outer), f, g);
    }
  }

  lemma SumSplice(outer: seq<Link>, ns: string, inner: seq<Link>, f: OutWeight, g: InWeight)
    requires NoSelfLink(outer, ns) && NoPassthrough(inner) && Attached(outer, ns, inner)
    ensures Sum(Splice(outer, ns, inner), f, g)
         == Sum(outer, Behind(ns, inner, f), BehindIn(ns, inner, g)) + Sum(inner, OnlyOut(ns, f), OnlyIn(ns, g))
  {
    SumConcat(OuterRest(outer, ns, inner), InnerRest(inner, ns, outer) + AllRewired(inner, ns, outer), f, g);
    SumConcat(InnerRest(inner, ns, outer), AllRewired(inner, ns, outer), f, g);
    SumOuter(outer, ns, inner, f, g);
    SumInner(inner, ns, outer, f, g);
  }
}
