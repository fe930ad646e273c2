/** What holds of every block of a consistent script, and that dissolving one nested
    block keeps it for the ones that are still there. */
module SpliceLevels {
  import opened GraphSyntax
  import opened Splicing
  import opened LinkWeights

  /* ----- what the consistency check guarantees, level by level ----- */

  ghost predicate Named(links: seq<Link>) {
    forall l :: l in links ==> (l.outport.Out? ==> l.outport.actor != "") && (l.inport.In? ==> l.inport.actor != "")
  }

  ghost predicate DistinctNames(blocks: seq<Block>) {
    forall i, j :: 0 <= i < j < |blocks| ==> blocks[i].ns != blocks[j].ns
  }

  ghost predicate Level(links: seq<Link>, blocks: seq<Block>) {
    && NoPassthrough(links) && Named(links) && DistinctNames(blocks)
    && forall c :: c in blocks ==> Identifier(c.ns) && Attached(links, c.ns, c.links)
  }

  /** A block as it leaves component expansion without errors. */
  ghost predicate Consistent(b: Block) {
    Level(b.links, b.blocks) && forall c :: c in b.blocks ==> Consistent(c)
  }

  /** At no level does an instance feed itself directly. */
  ghost predicate SelfLinkFree(b: Block) {
    forall c :: c in b.blocks ==> NoSelfLink(b.links, c.ns) && SelfLinkFree(c)
  }

  ghost predicate SameHull(a: seq<Link>, b: seq<Link>) {
    forall p :: (FromHull(a, p) <==> FromHull(b, p)) && (ToHull(a, p) <==> ToHull(b, p))
  }

  /* ----- membership in a spliced list ----- */

  ghost predicate RewiredFrom(x: Link, l: Link, q: Link, ns: string) {
    || (l.outport.InternalOut? && q.inport == In(ns, l.outport.port) && x == Link(q.outport, PromoteIn(ns, l.inport)))
    || (l.inport.InternalIn? && q.outport == Out(ns, l.inport.port) && x == Link(PromoteOut(ns, l.outport), q.inport))
  }

  lemma {:induction false} InOuterRest(x: Link, outer: seq<Link>, ns: string, inner: seq<Link>)
    ensures x in OuterRest(outer, ns, inner) <==> x in outer && !ConsumedOutside(x, ns, inner)
  {
    if outer != [] {
      InOuterRest(x, outer[1..], ns, inner);
      assert x in outer <==> x == outer[0] || x in outer[1..];
    }
  }

  lemma {:induction false} InInnerRest(x: Link, inner: seq<Link>, ns: string, outer: seq<Link>)
    ensures x in InnerRest(inner, ns, outer)
       <==> exists l :: l in inner && !ConsumedInside(l, ns, outer) && x == PromoteLink(ns, l)
  {
    if inner != [] {
      InInnerRest(x, inner[1..], ns, outer);
      assert forall l :: l in inner <==> l == inner[0] || l in inner[1..];
    }
  }

  lemma {:induction false} InThroughInport(x: Link, outer: seq<Link>, ns: string, port: string, i: InPort)
    ensures x in ThroughInport(outer, ns, port, i)
       <==> exists q :: q in outer && q.inport == In(ns, port) && x == Link(q.outport, i)
  {
    if outer != [] {
      InThroughInport(x, outer[1..], ns, port, i);
      assert forall q :: q in outer <==> q == outer[0] || q in outer[1..];
    }
  }

  lemma {:induction false} InThroughOutport(x: Link, outer: seq<Link>, ns: string, port: string, o: OutPort)
    ensures x in ThroughOutport(outer, ns, port, o)
       <==> exists q :: q in outer && q.outport == Out(ns, port) && x == Link(o, q.inport)
  {
    if outer != [] {
      InThroughOutport(x, outer[1..], ns, port, o);
      assert forall q :: q in outer <==> q == outer[0] || q in outer[1..];
    }
  }

  lemma InRewired(x: Link, l: Link, ns: string, outer: seq<Link>)
    ensures x in Rewired(l, ns, outer) <==> exists q :: q in outer && RewiredFrom(x, l, q, ns)
  {
    if l.outport.InternalOut? {
      InThroughInport(x, outer, ns, l.outport.port, PromoteIn(ns, l.inport));
    }
    if l.inport.InternalIn? {
      InThroughOutport(x, outer, ns, l.inport.port, PromoteOut(ns, l.outport));
    }
  }

  lemma {:induction false} InAllRewired(x: Link, inner: seq<Link>, ns: string, outer: seq<Link>)
    ensures x in AllRewired(inner, ns, outer)
       <==> exists l, q :: l in inner && q in outer && RewiredFrom(x, l, q, ns)
  {
    if inner != [] {
      InRewired(x, inner[0], ns, outer);
      InAllRewired(x, inner[1..], ns, outer);
      assert forall l :: l in inner <==> l == inner[0] || l in inner[1..];
    }
  }

  /** When the hulls are attached on both sides, everything that touches ns is rewired. */
  lemma InSplice(x: Link, outer: seq<Link>, ns: string, inner: seq<Link>)
    requires NoPassthrough(inner) && Attached(outer, ns, inner)
    ensures x in Splice(outer, ns, inner) <==>
      || (x in outer && !(x.outport.Out? && x.outport.actor == ns) && !(x.inport.In? && x.inport.actor == ns))
      || (exists l :: l in inner && l.Crossing() && x == PromoteLink(ns, l))
      || (exists l, q :: l in inner && q in outer && RewiredFrom(x, l, q, ns))
  {
    InOuterRest(x, outer, ns, inner);
    InInnerRest(x, inner, ns, outer);
    InAllRewired(x, inner, ns, outer);
    if x in outer {
      if x.outport.Out? && x.outport.actor == ns {
        assert UsesOut(outer, ns, x.outport.port);
      }
      if x.inport.In? && x.inport.actor == ns {
        assert UsesIn(outer, ns, x.inport.port);
      }
    }
    forall l | l in inner ensures ConsumedInside(l, ns, outer) <==> !l.Crossing() {
      if l.outport.InternalOut? {
        assert FromHull(inner, l.outport.port);
      } else if l.inport.InternalIn? {
        assert ToHull(inner, l.inport.port);
      }
    }
  }

  lemma PromotedEnds(ns: string, links: seq<Link>)
    requires Named(links)
    ensures forall l :: l in links && l.outport.Out? ==>
              PromoteOut(ns, l.outport).actor != "" && !Identifier(PromoteOut(ns, l.outport).actor)
    ensures forall l :: l in links && l.inport.In? ==>
              PromoteIn(ns, l.inport).actor != "" && !Identifier(PromoteIn(ns, l.inport).actor)
  {
    forall name: string | name != "" { PromotedIsNoIdentifier(ns, name); }
  }

  lemma SpliceKeepsUsesIn(outer: seq<Link>, ns: string, inner: seq<Link>, other: string, p: string)
    requires NoPassthrough(inner) && Named(inner) && Attached(outer, ns, inner)
    requires Identifier(other) && other != ns
    ensures UsesIn(Splice(outer, ns, inner), other, p) <==> UsesIn(outer, other, p)
  {
    if UsesIn(Splice(outer, ns, inner), other, p) {
      var x :| x in Splice(outer, ns, inner) && x.inport == In(other, p);
      InSplice(x, outer, ns, inner);
      PromotedEnds(ns, inner);
    }
    if UsesIn(outer, other, p) {
      var q :| q in outer && q.inport == In(other, p);
      if q.outport.Out? && q.outport.actor == ns {
        assert UsesOut(outer, ns, q.outport.port);
        var l :| l in inner && l.inport == InternalIn(q.outport.port);
        var x := Link(PromoteOut(ns, l.outport), q.inport);
        assert RewiredFrom(x, l, q, ns);
        InSplice(x, outer, ns, inner);
      } else {
        InSplice(q, outer, ns, inner);
      }
    }
  }

  lemma SpliceKeepsUsesOut(outer: seq<Link>, ns: string, inner: seq<Link>, other: string, p: string)
    requires NoPassthrough(inner) && Named(inner) && Attached(outer, ns, inner)
    requires Identifier(other) && other != ns
    ensures UsesOut(Splice(outer, ns, inner), other, p) <==> UsesOut(outer, other, p)
  {
    if UsesOut(Splice(outer, ns, inner), other, p) {
      var x :| x in Splice(outer, ns, inner) && x.outport == Out(other, p);
      InSplice(x, outer, ns, inner);
      PromotedEnds(ns, inner);
    }
    if UsesOut(outer, other, p) {
      var q :| q in outer && q.outport == Out(other, p);
      if q.inport.In? && q.inport.actor == ns {
        assert UsesIn(outer, ns, q.inport.port);
        var l :| l in inner && l.outport == InternalOut(q.inport.port);
        var x := Link(q.outport, PromoteIn(ns, l.inport));
        assert RewiredFrom(x, l, q, ns);
        InSplice(x, outer, ns, inner);
      } else {
        InSplice(q, outer, ns, inner);
      }
    }
  }

  lemma SpliceKeepsHull(outer: seq<Link>, ns: string, inner: seq<Link>, p: string)
    requires NoPassthrough(inner) && NoPassthrough(outer) && Attached(outer, ns, inner)
    ensures FromHull(Splice(outer, ns, inner), p) <==> FromHull(outer, p)
    ensures ToHull(Splice(outer, ns, inner), p) <==> ToHull(outer, p)
  {
    hide Splice, Promote;
    forall x { InSplice(x, outer, ns, inner); }
    if FromHull(outer, p) {
      var q :| q in outer && q.outport == InternalOut(p);
      if q.inport.In? && q.inport.actor == ns {
        assert UsesIn(outer, ns, q.inport.port);
        var l :| l in inner && l.outport == InternalOut(q.inport.port);
        assert RewiredFrom(Link(q.outport, PromoteIn(ns, l.inport)), l, q, ns);
      }
    }
    if ToHull(outer, p) {
      var q :| q in outer && q.inport == InternalIn(p);
      if q.outport.Out? && q.outport.actor == ns {
        assert UsesOut(outer, ns, q.outport.port);
        var l :| l in inner && l.inport == InternalIn(q.outport.port);
        assert RewiredFrom(Link(PromoteOut(ns, l.outport), q.inport), l, q, ns);
      }
    }
  }

  lemma SpliceKeepsLevel(outer: seq<Link>, blocks: seq<Block>, inner: seq<Link>)
    requires blocks != [] && Level(outer, blocks)
    requires NoPassthrough(inner) && Named(inner) && SameHull(inner, blocks[0].links)
    ensures Level(Splice(outer, blocks[0].ns, inner), blocks[1..])
    ensures SameHull(Splice(outer, blocks[0].ns, inner), outer)
  {
    hide Splice, Promote;
    var ns, all := blocks[0].ns, Splice(outer, blocks[0].ns, inner);
    assert blocks[0] in blocks;
    forall x { InSplice(x, outer, ns, inner); }
    PromotedEnds(ns, inner);
    forall p { SpliceKeepsHull(outer, ns, inner, p); }
    forall c | c in blocks[1..] ensures c in blocks && c.ns != ns && Attached(all, c.ns, c.links) {
      forall p
        ensures (UsesIn(all, c.ns, p) <==> UsesIn(outer, c.ns, p))
        ensures (UsesOut(all, c.ns, p) <==> UsesOut(outer, c.ns, p))
      {
        SpliceKeepsUsesIn(outer, ns, inner, c.ns, p);
        SpliceKeepsUsesOut(outer, ns, inner, c.ns, p);
      }
    }
  }

  lemma SpliceKeepsSelfLinkFree(outer: seq<Link>, ns: string, inner: seq<Link>, other: string)
    requires NoPassthrough(inner) && Named(inner) && Attached(outer, ns, inner)
    requires Identifier(other) && other != ns && NoSelfLink(outer, other)
    ensures NoSelfLink(Splice(outer, ns, inner), other)
  {
    forall x | x in Splice(outer, ns, inner) && x.outport.Out? && x.inport.In? && x.outport.actor == other
      ensures x.inport.actor != other
    {
      InSplice(x, outer, ns, inner);
      PromotedEnds(ns, inner);
    }
  }
}
