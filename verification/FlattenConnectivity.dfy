/** Flattening preserves connectivity, and exactly when. */
module FlattenConnectivity {
  import opened GraphSyntax
  import opened Connectivity
  import opened Splicing
  import opened LinkWeights
  import opened SpliceLevels

  /* ----- the whole tree ----- */

  lemma {:induction false} EndsOutside(o: OutPort, i: InPort, blocks: seq<Block>, f: OutWeight, g: InWeight)
    requires forall c :: c in blocks ==> Identifier(c.ns)
    ensures o.Out? && !Identifier(o.actor) ==> OutThrough(blocks, f)(o) == f(o)
    ensures i.In? && !Identifier(i.actor) ==> InThrough(blocks, g)(i) == g(i)
  {
    if blocks == [] {
      assert SumOut([o][1..], f) == 0 && SumIn([i][1..], g) == 0;
    } else {
      assert blocks[0] in blocks;
      EndsOutside(o, i, blocks[1..], f, g);
    }
  }

  /** Once promoted, ends are out of reach of the blocks that are still to be dissolved. */
  lemma PromotedWeights(ns: string, inner: seq<Link>, rest: seq<Block>, f: OutWeight, g: InWeight)
    requires NoPassthrough(inner) && Named(inner)
    requires forall c :: c in rest ==> Identifier(c.ns)
    ensures forall p :: Sum(inner, Promoted(ns, OutThrough(rest, f)), At(p)) == Sum(inner, Promoted(ns, f), At(p))
    ensures forall p :: Sum(inner, From(p), PromotedIn(ns, InThrough(rest, g))) ==
              Sum(inner, From(p), PromotedIn(ns, g))
    ensures Sum(inner, OnlyOut(ns, OutThrough(rest, f)), OnlyIn(ns, InThrough(rest, g)))
         == Sum(inner, OnlyOut(ns, f), OnlyIn(ns, g))
  {
    PromotedEnds(ns, inner);
    forall l | l in inner
      ensures l.outport.Out? ==> OutThrough(rest, f)(PromoteOut(ns, l.outport)) == f(PromoteOut(ns, l.outport))
      ensures l.inport.In? ==> InThrough(rest, g)(PromoteIn(ns, l.inport)) == g(PromoteIn(ns, l.inport))
    {
      EndsOutside(PromoteOut(ns, l.outport), PromoteIn(ns, l.inport), rest, f, g);
    }
    forall p ensures Sum(inner, Promoted(ns, OutThrough(rest, f)), At(p)) == Sum(inner, Promoted(ns, f), At(p)) {
      SumCong(inner, Promoted(ns, OutThrough(rest, f)), At(p), Promoted(ns, f), At(p));
    }
    forall p ensures Sum(inner, From(p), PromotedIn(ns, InThrough(rest, g))) == Sum(inner, From(p), PromotedIn(ns, g)) {
      SumCong(inner, From(p), PromotedIn(ns, InThrough(rest, g)), From(p), PromotedIn(ns, g));
    }
    SumCong(inner, OnlyOut(ns, OutThrough(rest, f)), OnlyIn(ns, InThrough(rest, g)), OnlyOut(ns, f), OnlyIn(ns, g));
  }

  lemma {:induction false} FlatKeepsHull(links: seq<Link>, blocks: seq<Block>)
    requires Level(links, blocks)
    requires forall c :: c in blocks ==> Consistent(c)
    ensures NoPassthrough(SpliceAll(links, blocks)) && Named(SpliceAll(links, blocks))
    ensures SameHull(SpliceAll(links, blocks), links)
    decreases blocks
  {
    if blocks != [] {
      assert blocks[0] in blocks;
      FlatKeepsHull(blocks[0].links, blocks[0].blocks);
      SpliceKeepsLevel(links, blocks, FlatLinks(blocks[0]));
      FlatKeepsHull(Splice(links, blocks[0].ns, FlatLinks(blocks[0])), blocks[1..]);
    }
  }

  lemma {:induction false} SumSpliceAll(links: seq<Link>, blocks: seq<Block>, f: OutWeight, g: InWeight)
    requires Level(links, blocks)
    requires forall c :: c in blocks ==> Consistent(c) && SelfLinkFree(c) && NoSelfLink(links, c.ns)
    ensures Sum(SpliceAll(links, blocks), f, g) == Sum(Chase(links, blocks), f, g) + Sum(Inside(blocks), f, g)
    decreases blocks, 0
  {
    SumChase(links, blocks, f, g);
    if blocks == [] {
      forall l | l in links
        ensures OutThrough([], f)(l.outport) == f(l.outport) && InThrough([], g)(l.inport) == g(l.inport)
      {
        assert SumOut([l.outport][1..], f) == 0 && SumIn([l.inport][1..], g) == 0;
      }
      SumCong(links, OutThrough([], f), InThrough([], g), f, g);
    } else {
      var c, rest := blocks[0], blocks[1..];
      var inner := FlatLinks(c);
      var spliced := Splice(links, c.ns, inner);
      assert c in blocks;
      FlatKeepsHull(c.links, c.blocks);
      SpliceKeepsLevel(links, blocks, inner);
      forall d | d in rest ensures NoSelfLink(spliced, d.ns) {
        SpliceKeepsSelfLinkFree(links, c.ns, inner, d.ns);
      }
      SumSpliceAll(spliced, rest, f, g);
      SumChase(spliced, rest, f, g);
      SumSplice(links, c.ns, inner, OutThrough(rest, f), InThrough(rest, g));
      SumDissolved(links, blocks, inner, f, g);
      SumWithin(c.ns, Resolve(c), f, g);
      SumFlat(c, OnlyOut(c.ns, f), OnlyIn(c.ns, g));
      PromotedWeights(c.ns, inner, rest, f, g);
      SumConcat(Within(c.ns, Resolve(c)), Inside(rest), f, g);
    }
  }

  lemma {:induction false} SumDissolved(links: seq<Link>, blocks: seq<Block>, inner: seq<Link>, f: OutWeight,
                                        g: InWeight)
    requires blocks != [] && Level(links, blocks) && inner == FlatLinks(blocks[0])
    requires NoPassthrough(inner) && Named(inner) && Consistent(blocks[0]) && SelfLinkFree(blocks[0])
    ensures Sum(links, Behind(blocks[0].ns, inner, OutThrough(blocks[1..], f)),
                BehindIn(blocks[0].ns, inner, InThrough(blocks[1..], g)))
         == Sum(links, OutThrough(blocks, f), InThrough(blocks, g))
    decreases blocks, 0, 0
  {
    var c, rest := blocks[0], blocks[1..];
    PromotedWeights(c.ns, inner, rest, f, g);
    forall p ensures Sum(inner, Promoted(c.ns, f), At(p)) == SumOut(Sources(c.ns, p, Resolve(c)), f)
             ensures Sum(inner, From(p), PromotedIn(c.ns, g)) == SumIn(Sinks(c.ns, p, Resolve(c)), g)
    {
      SumFlat(c, Promoted(c.ns, f), At(p));
      SumSources(c.ns, p, Resolve(c), f);
      SumFlat(c, From(p), PromotedIn(c.ns, g));
      SumSinks(c.ns, p, Resolve(c), g);
    }
    SumCong(links, Behind(c.ns, inner, OutThrough(rest, f)), BehindIn(c.ns, inner, InThrough(rest, g)),
            OutThrough(blocks, f), InThrough(blocks, g));
  }

  lemma {:induction false} SumFlat(b: Block, f: OutWeight, g: InWeight)
    requires Consistent(b) && SelfLinkFree(b)
    ensures Sum(FlatLinks(b), f, g) == Sum(Resolve(b), f, g)
    decreases b, 1
  {
    SumSpliceAll(b.links, b.blocks, f, g);
    SumConcat(Chase(b.links, b.blocks), Inside(b.blocks), f, g);
  }

  lemma {:induction false} CountIsSum(links: seq<Link>, x: Link)
    ensures multiset(links)[x] ==
              Sum(links, (o: OutPort) => if o == x.outport then 1 else 0, (i: InPort) => if i == x.inport then 1 else 0)
  {
    if links != [] {
      assert links == [links[0]] + links[1..];
      CountIsSum(links[1..], x);
    }
  }

  /** Dissolving all nested blocks leaves exactly the connections of the nested graph,
      each as often as there are ways through the hulls. */
  lemma FlatIsResolve(b: Block)
    requires Consistent(b) && SelfLinkFree(b)
    ensures multiset(FlatLinks(b)) == multiset(Resolve(b))
  {
    forall x ensures multiset(FlatLinks(b))[x] == multiset(Resolve(b))[x] {
      CountIsSum(FlatLinks(b), x);
      CountIsSum(Resolve(b), x);
      SumFlat(b, (o: OutPort) => if o == x.outport then 1 else 0, (i: InPort) => if i == x.inport then 1 else 0);
    }
  }

  /* ----- self-links are exactly what goes wrong ----- */

  /** The name is that of a nested component instance, not of an actor. */
  ghost predicate NamesInstance(blocks: seq<Block>, name: string) {
    exists c :: c in blocks && (name == c.ns || NamesInside(c, name))
  }

  ghost predicate NamesInside(c: Block, name: string) {
    |name| > |c.ns| + 1 && name[..|c.ns|] == c.ns && name[|c.ns|] == ':' && NamesInstance(c.blocks, name[|c.ns| + 1..])
  }

  /** All names in the links of the tree are names as they are written in a script. */
  ghost predicate Scripted(b: Block) {
    && (forall l :: l in b.links ==>
         (l.outport.Out? ==> Identifier(l.outport.actor)) && (l.inport.In? ==> Identifier(l.inport.actor)))
    && forall c :: c in b.blocks ==> Scripted(c)
  }

  ghost predicate LeavesInstance(links: seq<Link>, blocks: seq<Block>) {
    exists x :: x in links && x.outport.Out? && NamesInstance(blocks, x.outport.actor)
  }

  lemma ColonInside(a: string, b: string, full: string)
    requires |b| <= |full| && full[..|b|] == b
    requires |a| < |full| && full[..|a|] == a && full[|a|] == ':'
    ensures |a| < |b| ==> ':' in b
  {
    if |a| < |b| {
      assert b[|a|] == ':';
    }
  }

  lemma PromotedInstance(c: Block, blocks: seq<Block>, name: string)
    requires c in blocks && DistinctNames(blocks) && name != ""
    requires forall d :: d in blocks ==> Identifier(d.ns)
    ensures NamesInstance(blocks, Promote(c.ns, name)) <==> NamesInstance(c.blocks, name)
  {
    hide DistinctNames, NamesInside, Identifier;
    var full := Promote(c.ns, name);
    InsidePromoted(c, name);
    if NamesInstance(blocks, full) {
      var d :| d in blocks && (full == d.ns || NamesInside(d, full));
      PromotedIsNoIdentifier(c.ns, name);
      OnlyInside(c, d, blocks, name);
    }
  }

  lemma InsidePromoted(c: Block, name: string)
    requires name != ""
    ensures NamesInside(c, Promote(c.ns, name)) <==> NamesInstance(c.blocks, name)
  {
    hide NamesInstance;
    var full := Promote(c.ns, name);
    assert full[..|c.ns|] == c.ns && full[|c.ns|] == ':' && full[|c.ns| + 1..] == name;
  }

  lemma OnlyInside(c: Block, d: Block, blocks: seq<Block>, name: string)
    requires c in blocks && d in blocks && DistinctNames(blocks) && Identifier(c.ns) && Identifier(d.ns)
    requires name != "" && NamesInside(d, Promote(c.ns, name))
    ensures d == c
  {
    hide NamesInstance;
    var full := Promote(c.ns, name);
    assert full[..|c.ns|] == c.ns && full[|c.ns|] == ':';
    ColonInside(d.ns, c.ns, full);
    ColonInside(c.ns, d.ns, full);
    var i :| 0 <= i < |blocks| && blocks[i] == c;
    var j :| 0 <= j < |blocks| && blocks[j] == d;
  }

  lemma {:induction false} InOutEnds(out: OutPort, o: OutPort, blocks: seq<Block>)
    requires out in OutEnds(o, blocks)
    ensures || (out == o && (o.Out? ==> forall c :: c in blocks ==> c.ns != o.actor))
            || (exists c, l :: c in blocks && l in Resolve(c) && out == PromoteOut(c.ns, l.outport))
  {
    if o.Out? && blocks != [] {
      if blocks[0].ns == o.actor {
        SourcesExactly(out, blocks[0].ns, o.port, Resolve(blocks[0]));
        assert blocks[0] in blocks;
      } else {
        InOutEnds(out, o, blocks[1..]);
        assert forall c :: c in blocks <==> c == blocks[0] || c in blocks[1..];
      }
    }
  }

  lemma {:induction false} SourcesExactly(out: OutPort, ns: string, port: string, links: seq<Link>)
    ensures out in Sources(ns, port, links) <==>
              exists l :: l in links && l.inport == InternalIn(port) && out == PromoteOut(ns, l.outport)
  {
    if links != [] {
      SourcesExactly(out, ns, port, links[1..]);
      assert forall l :: l in links <==> l == links[0] || l in links[1..];
    }
  }

  lemma {:induction false} InCross(x: Link, outs: seq<OutPort>, ins: seq<InPort>)
    ensures x in Cross(outs, ins) <==> x.outport in outs && x.inport in ins
  {
    if outs != [] {
      InFan(x, outs[0], ins);
      InCross(x, outs[1..], ins);
    }
  }

  lemma {:induction false} InFan(x: Link, o: OutPort, ins: seq<InPort>)
    ensures x in Fan(o, ins) <==> x.outport == o && x.inport in ins
  {
    if ins != [] {
      InFan(x, o, ins[1..]);
    }
  }

  lemma {:induction false} InChase(x: Link, links: seq<Link>, blocks: seq<Block>)
    ensures x in Chase(links, blocks)
       <==> exists l :: l in links && x.outport in OutEnds(l.outport, blocks) && x.inport in InEnds(l.inport, blocks)
  {
    if links != [] {
      InCross(x, OutEnds(links[0].outport, blocks), InEnds(links[0].inport, blocks));
      InChase(x, links[1..], blocks);
      assert forall l :: l in links <==> l == links[0] || l in links[1..];
    }
  }

  lemma {:induction false} InInside(x: Link, blocks: seq<Block>)
    ensures x in Inside(blocks)
       <==> exists c, l :: c in blocks && l in Resolve(c) && l.Crossing() && x == PromoteLink(c.ns, l)
  {
    if blocks != [] {
      InWithin(x, blocks[0].ns, Resolve(blocks[0]));
      InInside(x, blocks[1..]);
      assert forall c :: c in blocks <==> c == blocks[0] || c in blocks[1..];
    }
  }

  lemma {:induction false} InWithin(x: Link, ns: string, links: seq<Link>)
    ensures x in Within(ns, links) <==> exists l :: l in links && l.Crossing() && x == PromoteLink(ns, l)
  {
    if links != [] {
      InWithin(x, ns, links[1..]);
      assert forall l :: l in links <==> l == links[0] || l in links[1..];
    }
  }

  /** A connection starts at a link of the block itself, or inside one of its blocks. */
  lemma ResolvedStart(b: Block, x: Link)
    requires x in Resolve(b)
    ensures || (exists c, l :: c in b.blocks && l in Resolve(c) && x.outport == PromoteOut(c.ns, l.outport))
            || (exists l :: l in b.links && l.outport == x.outport &&
                  (x.outport.Out? ==> forall c :: c in b.blocks ==> c.ns != x.outport.actor))
  {
    InChase(x, b.links, b.blocks);
    InInside(x, b.blocks);
    if x in Chase(b.links, b.blocks) {
      var l :| l in b.links && x.outport in OutEnds(l.outport, b.blocks);
      InOutEnds(x.outport, l.outport, b.blocks);
    } else {
      var c, l :| c in b.blocks && l in Resolve(c) && l.Crossing() && x == PromoteLink(c.ns, l);
      assert x.outport == PromoteOut(c.ns, l.outport);
    }
  }

  lemma NotAnInstance(b: Block, name: string)
    requires Identifier(name) && forall c :: c in b.blocks ==> c.ns != name
    ensures !NamesInstance(b.blocks, name)
  {
    forall c | c in b.blocks ensures !NamesInside(c, name) {
      assert NamesInside(c, name) ==> ':' in name;
    }
  }

  /** Resolved links start at actors or at the hull of the block itself. */
  lemma {:induction false} ResolvedFromActors(b: Block, x: Link)
    requires Consistent(b) && Scripted(b) && x in Resolve(b) && x.outport.Out?
    ensures x.outport.actor != "" && !NamesInstance(b.blocks, x.outport.actor)
  {
    ResolvedStart(b, x);
    if c, l :| c in b.blocks && l in Resolve(c) && x.outport == PromoteOut(c.ns, l.outport) {
      ResolvedFromActors(c, l);
      PromotedInstance(c, b.blocks, l.outport.actor);
      PromotedIsNoIdentifier(c.ns, l.outport.actor);
    } else {
      NotAnInstance(b, x.outport.actor);
    }
  }

  lemma SpliceKeepsLeaving(outer: seq<Link>, ns: string, inner: seq<Link>, q: Link)
    requires NoPassthrough(inner) && Attached(outer, ns, inner)
    requires q in outer && q.outport.Out? && q.outport.actor != ns
    ensures exists x :: x in Splice(outer, ns, inner) && x.outport == q.outport
  {
    var x := q;
    if q.inport.In? && q.inport.actor == ns {
      assert UsesIn(outer, ns, q.inport.port);
      var l :| l in inner && l.outport == InternalOut(q.inport.port);
      x := Link(q.outport, PromoteIn(ns, l.inport));
      assert RewiredFrom(x, l, q, ns);
    }
    InSplice(x, outer, ns, inner);
  }

  /** Once some link starts at an instance that no later step dissolves, one always will. */
  lemma {:induction false} SpliceAllKeepsLeaving(links: seq<Link>, blocks: seq<Block>, q: Link)
    requires q in links && q.outport.Out?
    requires Level(links, blocks) && forall c :: c in blocks ==> Consistent(c) && c.ns != q.outport.actor
    ensures exists x :: x in SpliceAll(links, blocks) && x.outport == q.outport
    decreases blocks
  {
    if blocks != [] {
      var inner := FlatLinks(blocks[0]);
      assert blocks[0] in blocks;
      FlatKeepsHull(blocks[0].links, blocks[0].blocks);
      SpliceKeepsLevel(links, blocks, inner);
      SpliceKeepsLeaving(links, blocks[0].ns, inner, q);
      var x :| x in Splice(links, blocks[0].ns, inner) && x.outport == q.outport;
      SpliceAllKeepsLeaving(Splice(links, blocks[0].ns, inner), blocks[1..], x);
    }
  }

  lemma {:induction false} SelfLinkLeaves(links: seq<Link>, blocks: seq<Block>)
    requires Level(links, blocks) && forall c :: c in blocks ==> Consistent(c)
    requires exists c :: c in blocks && (!NoSelfLink(links, c.ns) || !SelfLinkFree(c))
    ensures LeavesInstance(SpliceAll(links, blocks), blocks)
    decreases blocks
  {
    hide Splice;
    var c, rest := blocks[0], blocks[1..];
    var inner := FlatLinks(c);
    var spliced := Splice(links, c.ns, inner);
    assert c in blocks;
    FlatKeepsHull(c.links, c.blocks);
    SpliceKeepsLevel(links, blocks, inner);
    if !NoSelfLink(links, c.ns) || !SelfLinkFree(c) {
      var x := FirstLeaves(links, blocks);
      SpliceAllKeepsLeaving(spliced, rest, x);
    } else {
      var d :| d in rest && (!NoSelfLink(links, d.ns) || !SelfLinkFree(d));
      if !NoSelfLink(links, d.ns) {
        var q :| q in links && q.outport.Out? && q.inport.In? && q.outport.actor == d.ns && q.inport.actor == d.ns;
        InSplice(q, links, c.ns, inner);
      }
      SelfLinkLeaves(spliced, rest);
      assert forall e :: e in rest ==> e in blocks;
    }
  }

  lemma {:induction false} FirstLeaves(links: seq<Link>, blocks: seq<Block>) returns (x: Link)
    requires blocks != [] && Level(links, blocks) && Consistent(blocks[0])
    requires !NoSelfLink(links, blocks[0].ns) || !SelfLinkFree(blocks[0])
    ensures x in Splice(links, blocks[0].ns, FlatLinks(blocks[0]))
    ensures x.outport.Out? && NamesInstance(blocks, x.outport.actor)
    ensures forall d :: d in blocks[1..] ==> d.ns != x.outport.actor
    decreases blocks, 0
  {
    hide Splice;
    var c := blocks[0];
    var inner := FlatLinks(c);
    assert c in blocks;
    FlatKeepsHull(c.links, c.blocks);
    if !NoSelfLink(links, c.ns) {
      var q :| q in links && q.outport.Out? && q.inport.In? && q.outport.actor == c.ns && q.inport.actor == c.ns;
      assert UsesIn(links, c.ns, q.inport.port);
      var l :| l in inner && l.outport == InternalOut(q.inport.port);
      x := Link(q.outport, PromoteIn(c.ns, l.inport));
      assert RewiredFrom(x, l, q, c.ns);
    } else {
      SelfLinkLeaves(c.links, c.blocks);
      var y :| y in inner && y.outport.Out? && NamesInstance(c.blocks, y.outport.actor);
      if y.inport.In? {
        x := PromoteLink(c.ns, y);
      } else {
        assert ToHull(inner, y.inport.port);
        var q :| q in links && q.outport == Out(c.ns, y.inport.port);
        x := Link(PromoteOut(c.ns, y.outport), q.inport);
        assert RewiredFrom(x, y, q, c.ns);
      }
      PromotedInstance(c, blocks, y.outport.actor);
      PromotedIsNoIdentifier(c.ns, y.outport.actor);
    }
    InSplice(x, links, c.ns, inner);
  }

  /** Flattening gives the connections of the graph exactly when no component instance,
      at any level, is linked straight back to itself. */
  lemma FlattenExact(b: Block)
    requires Consistent(b) && Scripted(b)
    ensures multiset(FlatLinks(b)) == multiset(Resolve(b)) <==> SelfLinkFree(b)
  {
    if SelfLinkFree(b) {
      FlatIsResolve(b);
    } else {
      SelfLinkLeaves(b.links, b.blocks);
      var x :| x in FlatLinks(b) && x.outport.Out? && NamesInstance(b.blocks, x.outport.actor);
      if x in Resolve(b) {
        ResolvedFromActors(b, x);
      }
      assert x in multiset(FlatLinks(b)) && x !in multiset(Resolve(b));
    }
  }
}
