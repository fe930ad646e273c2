/** Flat names are unique, and the ports of the flat links are ports of flat actors. */
module FlattenNames {
  import opened GraphSyntax
  import opened Connectivity
  import opened Splicing
  import opened SpliceLevels
  import opened FlattenConnectivity
  import opened Scoping

  ghost predicate DistinctIdents(actors: seq<Actor>) {
    forall i, j :: 0 <= i < j < |actors| ==> actors[i].ident != actors[j].ident
  }

  /** No identifier is declared twice in a block, by actors or component instances. */
  ghost predicate WellNamed(b: Block) {
    && DistinctIdents(b.actors) && DistinctNames(b.blocks)
    && (forall a :: a in b.actors ==> Identifier(a.ident))
    && (forall c :: c in b.blocks ==> Identifier(c.ns) && WellNamed(c))
    && (forall a, c :: a in b.actors && c in b.blocks ==> a.ident != c.ns)
  }

  ghost predicate Names(actors: seq<Actor>, name: string) {
    exists a :: a in actors && a.ident == name
  }

  /** Every port in a link belongs to something declared in the same block. */
  ghost predicate Declared(b: Block) {
    && (forall l :: l in b.links ==>
         && (l.outport.Out? ==> Names(b.actors, l.outport.actor) || exists c :: c in b.blocks &&
                                                                      c.ns == l.outport.actor)
         && (l.inport.In? ==> Names(b.actors, l.inport.actor) || exists c :: c in b.blocks && c.ns == l.inport.actor))
    && forall c :: c in b.blocks ==> Declared(c)
  }

  lemma {:induction false} InLiftActors(ns: string, env: map<string, Arg>, actors: seq<Actor>)
    ensures |LiftActors(ns, env, actors)| == |actors|
    ensures forall i :: 0 <= i < |actors| ==> LiftActors(ns, env, actors)[i].ident == ns + ":" + actors[i].ident
  {
    if actors != [] {
      InLiftActors(ns, env, actors[1..]);
    }
  }

  lemma {:induction false} InDissolved(blocks: seq<Block>, name: string)
    ensures Names(Dissolved(blocks), name)
       <==> exists c, a :: c in blocks && a in FlatActors(c) && name == c.ns + ":" + a.ident
  {
    if blocks != [] {
      var c := blocks[0];
      var lifted := LiftActors(c.ns, c.args, FlatActors(c));
      InLiftActors(c.ns, c.args, FlatActors(c));
      InDissolved(blocks[1..], name);
      assert c in blocks;
      forall a | a in FlatActors(c) ensures Names(lifted, c.ns + ":" + a.ident) {
        var i :| 0 <= i < |FlatActors(c)| && FlatActors(c)[i] == a;
        assert lifted[i] in lifted;
      }
      assert Names(Dissolved(blocks), name) <==> Names(lifted, name) || Names(Dissolved(blocks[1..]), name);
      if Names(lifted, name) {
        var i :| 0 <= i < |lifted| && lifted[i].ident == name;
        assert FlatActors(c)[i] in FlatActors(c);
      }
    }
  }

  /** The first prefix of a name tells which block it comes from. */
  lemma PrefixIsUnique(m: string, n: string, x: string, y: string)
    requires Identifier(m) && Identifier(n) && m + ":" + x == n + ":" + y
    ensures m == n && x == y
  {
    var full := m + ":" + x;
    assert full[..|m|] == m && full[|m|] == ':' && full[|m| + 1..] == x;
    assert full == n + ":" + y;
    assert full[..|n|] == n && full[|n|] == ':' && full[|n| + 1..] == y;
    ColonInside(m, n, full);
    ColonInside(n, m, full);
  }

  lemma DistinctConcat(a: seq<Actor>, b: seq<Actor>)
    requires DistinctIdents(a) && DistinctIdents(b)
    requires forall name :: !(Names(a, name) && Names(b, name))
    ensures DistinctIdents(a + b)
  {
    forall i, j | 0 <= i < |a| && 0 <= j < |b| ensures a[i].ident != b[j].ident {
      assert Names(a, a[i].ident) && a[i] in a && b[j] in b;
    }
  }

  lemma {:induction false} DissolvedDistinct(blocks: seq<Block>)
    requires DistinctNames(blocks) && forall c :: c in blocks ==> Identifier(c.ns) && WellNamed(c)
    ensures DistinctIdents(Dissolved(blocks))
    decreases blocks
  {
    if blocks != [] {
      var c, rest := blocks[0], blocks[1..];
      var lifted := LiftActors(c.ns, c.args, FlatActors(c));
      assert c in blocks;
      FlatNamesDistinct(c);
      InLiftActors(c.ns, c.args, FlatActors(c));
      forall i, j | 0 <= i < j < |lifted| ensures lifted[i].ident != lifted[j].ident {
        if lifted[i].ident == lifted[j].ident {
          PrefixIsUnique(c.ns, c.ns, FlatActors(c)[i].ident, FlatActors(c)[j].ident);
        }
      }
      DissolvedDistinct(rest);
      forall name ensures !(Names(lifted, name) && Names(Dissolved(rest), name)) {
        if Names(lifted, name) && Names(Dissolved(rest), name) {
          InDissolved(rest, name);
          var d, a :| d in rest && a in FlatActors(d) && name == d.ns + ":" + a.ident;
          var i :| 0 <= i < |lifted| && lifted[i].ident == name;
          PrefixIsUnique(c.ns, d.ns, FlatActors(c)[i].ident, a.ident);
        }
      }
      DistinctConcat(lifted, Dissolved(rest));
    }
  }

  /** Flat names are injective: no two actors of the tree end up with the same name. */
  lemma {:induction false} FlatNamesDistinct(b: Block)
    requires WellNamed(b)
    ensures DistinctIdents(FlatActors(b))
    decreases b, 1
  {
    DissolvedDistinct(b.blocks);
    forall name ensures !(Names(b.actors, name) && Names(Dissolved(b.blocks), name)) {
      if Names(Dissolved(b.blocks), name) {
        InDissolved(b.blocks, name);
        var c, a :| c in b.blocks && a in FlatActors(c) && name == c.ns + ":" + a.ident;
        assert name[|c.ns|] == ':';
      }
    }
    DistinctConcat(b.actors, Dissolved(b.blocks));
  }

  lemma NamesFlat(b: Block, c: Block, name: string)
    requires c in b.blocks && Names(FlatActors(c), name) && name != ""
    ensures Names(FlatActors(b), Promote(c.ns, name))
  {
    InDissolved(b.blocks, c.ns + ":" + name);
    assert forall a :: a in Dissolved(b.blocks) ==> a in FlatActors(b);
  }

  lemma {:induction false} SinksExactly(end: InPort, ns: string, port: string, links: seq<Link>)
    ensures end in Sinks(ns, port, links) <==>
              exists l :: l in links && l.outport == InternalOut(port) && end == PromoteIn(ns, l.inport)
  {
    if links != [] {
      SinksExactly(end, ns, port, links[1..]);
      assert forall l :: l in links <==> l == links[0] || l in links[1..];
    }
  }

  lemma {:induction false} InInEnds(end: InPort, i: InPort, blocks: seq<Block>)
    requires end in InEnds(i, blocks)
    ensures || (end == i && (i.In? ==> forall c :: c in blocks ==> c.ns != i.actor))
            || (exists c, l :: c in blocks && l in Resolve(c) && end == PromoteIn(c.ns, l.inport))
  {
    if i.In? && blocks != [] {
      if blocks[0].ns == i.actor {
        SinksExactly(end, blocks[0].ns, i.port, Resolve(blocks[0]));
        assert blocks[0] in blocks;
      } else {
        InInEnds(end, i, blocks[1..]);
        assert forall c :: c in blocks <==> c == blocks[0] || c in blocks[1..];
      }
    }
  }

  lemma ResolvedEnd(b: Block, x: Link)
    requires x in Resolve(b)
    ensures || (exists c, l :: c in b.blocks && l in Resolve(c) && x.inport == PromoteIn(c.ns, l.inport))
            || (exists l :: l in b.links && l.inport == x.inport &&
                  (x.inport.In? ==> forall c :: c in b.blocks ==> c.ns != x.inport.actor))
  {
    InChase(x, b.links, b.blocks);
    InInside(x, b.blocks);
    if x in Chase(b.links, b.blocks) {
      var l :| l in b.links && x.inport in InEnds(l.inport, b.blocks);
      InInEnds(x.inport, l.inport, b.blocks);
    } else {
      var c, l :| c in b.blocks && l in Resolve(c) && l.Crossing() && x == PromoteLink(c.ns, l);
      assert x.inport == PromoteIn(c.ns, l.inport);
    }
  }

  lemma ActorIsFlat(b: Block, name: string)
    requires Names(b.actors, name)
    ensures Names(FlatActors(b), name)
  {
    assert forall a :: a in b.actors ==> a in FlatActors(b);
  }

  lemma {:induction false} StartIsFlatActor(b: Block, x: Link)
    requires Declared(b) && Scripted(b) && x in Resolve(b) && x.outport.Out?
    ensures x.outport.actor != "" && Names(FlatActors(b), x.outport.actor)
    decreases b
  {
    ResolvedStart(b, x);
    if c, l :| c in b.blocks && l in Resolve(c) && x.outport == PromoteOut(c.ns, l.outport) {
      StartIsFlatActor(c, l);
      NamesFlat(b, c, l.outport.actor);
    } else {
      ActorIsFlat(b, x.outport.actor);
    }
  }

  lemma {:induction false} EndIsFlatActor(b: Block, x: Link)
    requires Declared(b) && Scripted(b) && x in Resolve(b) && x.inport.In?
    ensures x.inport.actor != "" && Names(FlatActors(b), x.inport.actor)
    decreases b
  {
    ResolvedEnd(b, x);
    if c, l :| c in b.blocks && l in Resolve(c) && x.inport == PromoteIn(c.ns, l.inport) {
      EndIsFlatActor(c, l);
      NamesFlat(b, c, l.inport.actor);
    } else {
      ActorIsFlat(b, x.inport.actor);
    }
  }

  /** Both ports of every connection carry the flat name of an actor. */
  lemma EndsAreFlatActors(b: Block, x: Link)
    requires Declared(b) && Scripted(b) && x in Resolve(b)
    ensures x.outport.Out? ==> x.outport.actor != "" && Names(FlatActors(b), x.outport.actor)
    ensures x.inport.In? ==> x.inport.actor != "" && Names(FlatActors(b), x.inport.actor)
  {
    if x.outport.Out? {
      StartIsFlatActor(b, x);
    }
    if x.inport.In? {
      EndIsFlatActor(b, x);
    }
  }
}
