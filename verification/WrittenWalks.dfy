/** Connections as walks through the script as it is written: along a link, into the definition of a
    component, and out of it again. */
module WrittenWalks {
  import opened GraphSyntax
  import opened Scoping
  import opened Constants
  import opened ComponentExpansion
  import opened ConstantTrees
  import opened Occurrences
  import opened FlatOccurrences
  import LinkWeights
  import SpliceLevels
  import Walks

  /* ----- the reference: links in the script ----- */

  ghost function Idents(insts: seq<Actor>): seq<string> {
    seq(|insts|, i requires 0 <= i < |insts| => insts[i].ident)
  }

  /** The path leads into the instances. */
  ghost predicate LeadsInto(path: seq<string>, script: string, main: Block, defs: Definitions, insts: seq<Actor>) {
    Chain(main, defs, insts) && path == [script] + Idents(insts)
  }

  ghost predicate IsWritten(s: Walks.Step, script: string, main: Block, defs: Definitions) {
    exists insts :: LeadsInto(s.path, script, main, defs, insts) && s.link in Inside(main, defs, insts).links
  }

  /** The step starts at a port of an actor, which is called out in the flat graph. */
  ghost predicate Begins(s: Walks.Step, script: string, main: Block, defs: Definitions, out: OutPort) {
    s.link.outport.Out? &&
    exists insts :: LeadsInto(s.path, script, main, defs, insts) &&
                    !Hosts(Inside(main, defs, insts), defs, s.link.outport.actor) &&
                    out == Out(NameIn(script, insts, s.link.outport.actor), s.link.outport.port)
  }

  ghost predicate Finishes(s: Walks.Step, script: string, main: Block, defs: Definitions, end: InPort) {
    s.link.inport.In? &&
    exists insts :: LeadsInto(s.path, script, main, defs, insts) &&
                    !Hosts(Inside(main, defs, insts), defs, s.link.inport.actor) &&
                    end == In(NameIn(script, insts, s.link.inport.actor), s.link.inport.port)
  }

  ghost predicate Goes(w: seq<Walks.Step>, script: string, main: Block, defs: Definitions, x: Link) {
    && w != [] && Begins(w[0], script, main, defs, x.outport) && Finishes(w[|w| - 1], script, main, defs, x.inport)
    && (forall i :: 0 <= i < |w| ==> IsWritten(w[i], script, main, defs))
    && forall i :: 0 <= i < |w| - 1 ==> Walks.Follows(w[i], w[i + 1])
  }

  /** A walk through the script joins the two ports. */
  ghost predicate Joined(x: Link, script: string, main: Block, defs: Definitions) {
    exists w :: Goes(w, script, main, defs, x)
  }

  ghost predicate LinksItself(b: Block, defs: Definitions, a: Actor) {
    a in b.actors && a.actorType in defs && !LinkWeights.NoSelfLink(b.links, a.ident)
  }

  /** No instance, at any depth, has one of its outports linked to one of its inports. */
  ghost predicate NoneLinksItself(main: Block, defs: Definitions) {
    forall insts :: Chain(main, defs, insts) ==> forall a :: !LinksItself(Inside(main, defs, insts), defs, a)
  }

  /* ----- paths and scopes ----- */

  ghost function PathOf(scopes: seq<Scope>): seq<string> {
    if scopes == [] then [] else [scopes[|scopes| - 1].ns] + PathOf(scopes[..|scopes| - 1])
  }

  lemma {:induction false} PathOfInstances(insts: seq<Actor>)
    ensures PathOf(ScopesOf(insts)) == Idents(insts)
    decreases |insts|
  {
    if insts != [] {
      var a, rest := insts[0], insts[1..];
      PathOfInstances(rest);
      ScopesCons(a, rest);
      assert insts == [a] + rest;
      var scopes := ScopesOf(insts);
      assert scopes[..|scopes| - 1] == ScopesOf(rest) && scopes[|scopes| - 1].ns == a.ident;
    }
  }

  lemma PathInto(script: string, insts: seq<Actor>)
    ensures PathOf(InScript(script, insts)) == [script] + Idents(insts)
  {
    PathOfInstances(insts);
    var scopes := InScript(script, insts);
    assert scopes[..|scopes| - 1] == ScopesOf(insts);
  }

  lemma {:induction false} PathOfReplaced(scopes: seq<Scope>, defined: Values)
    ensures PathOf(ReplaceInScopes(scopes, defined)) == PathOf(scopes)
    decreases |scopes|
  {
    if scopes != [] {
      PathOfReplaced(scopes[..|scopes| - 1], defined);
      assert ReplaceInScopes(scopes, defined)[..|scopes| - 1] == ReplaceInScopes(scopes[..|scopes| - 1], defined);
    }
  }

  lemma {:induction false} FindAt(b: Block, path: seq<string>, c: Block) returns (scopes: seq<Scope>)
    requires Walks.IsAt(b, path, c)
    ensures Within(b, scopes, c) && PathOf(scopes) == path
    decreases |path|
  {
    if path == [] {
      scopes := [];
    } else {
      var d :| d in b.blocks && d.ns == path[0] && Walks.IsAt(d, path[1..], c);
      var rest := FindAt(d, path[1..], c);
      scopes := OneScopeMore(b, d, rest, c);
    }
  }

  lemma OneScopeMore(b: Block, d: Block, rest: seq<Scope>, c: Block) returns (scopes: seq<Scope>)
    requires d in b.blocks && Within(d, rest, c)
    ensures Within(b, scopes, c) && PathOf(scopes) == [d.ns] + PathOf(rest)
    ensures scopes == rest + [Scope(d.ns, d.args)]
  {
    WithinOneMore(b, d, rest, c);
    scopes := rest + [Scope(d.ns, d.args)];
    assert scopes[..|scopes| - 1] == rest;
  }

  lemma {:induction false} WithinIsAt(b: Block, scopes: seq<Scope>, c: Block)
    requires Within(b, scopes, c)
    ensures Walks.IsAt(b, PathOf(scopes), c)
    decreases |scopes|
  {
    if scopes != [] {
      var k := |scopes| - 1;
      var d :| d in b.blocks && Scope(d.ns, d.args) == scopes[k] && Within(d, scopes[..k], c);
      WithinIsAt(d, scopes[..k], c);
      assert PathOf(scopes)[1..] == PathOf(scopes[..k]);
    }
  }

  /** The name from outside all scopes. */
  lemma {:induction false} NameOutside(scopes: seq<Scope>, ident: string)
    requires scopes != []
    ensures FullName(scopes, ident) == scopes[|scopes| - 1].ns + ":" + FullName(scopes[..|scopes| - 1], ident)
    decreases |scopes|
  {
    if |scopes| > 1 {
      var k := |scopes| - 1;
      NameOutside(scopes[1..], scopes[0].ns);
      assert scopes[1..][..k - 1] == scopes[..k][1..];
      if k > 1 {
        assert FullName(scopes[..k], ident) == FullName(scopes[..k][1..], scopes[0].ns) + ":" + ident;
      }
      assert FullName(scopes, ident) == FullName(scopes[1..], scopes[0].ns) + ":" + ident;
      var s, f := scopes[k].ns, FullName(scopes[..k][1..], scopes[0].ns);
      assert (s + ":" + f) + ":" + ident == s + ":" + (f + ":" + ident);
    }
  }

  ghost predicate StartOf(scopes: seq<Scope>, c: Block, o: OutPort, out: OutPort) {
    && (o.Out? ==> Walks.NoInstance(c, o.actor)) && (scopes == [] ==> out == o)
    && (scopes != [] ==> o.Out? && out == Out(FullName(scopes, o.actor), o.port))
  }

  ghost predicate EndOf(scopes: seq<Scope>, c: Block, i: InPort, end: InPort) {
    && (i.In? ==> Walks.NoInstance(c, i.actor)) && (scopes == [] ==> end == i)
    && (scopes != [] ==> i.In? && end == In(FullName(scopes, i.actor), i.port))
  }

  lemma {:induction false} FindStart(b: Block, s: Walks.Step, out: OutPort) returns (scopes: seq<Scope>, c: Block)
    requires Walks.StartsAt(b, s, out) && (s.link.outport.Out? ==> s.link.outport.actor != "")
    ensures Within(b, scopes, c) && PathOf(scopes) == s.path && StartOf(scopes, c, s.link.outport, out)
    decreases |s.path|
  {
    if s.path == [] {
      scopes, c := [], b;
    } else {
      var d, o :| d in b.blocks && d.ns == s.path[0] && Walks.StartsAt(d, Walks.Step(s.path[1..], s.link), o) &&
        out == PromoteOut(d.ns, o);
      var rest;
      rest, c := FindStart(d, Walks.Step(s.path[1..], s.link), o);
      scopes := OneScopeMore(b, d, rest, c);
      NameOutside(scopes, s.link.outport.actor);
      assert scopes[..|scopes| - 1] == rest;
    }
  }

  lemma {:induction false} HasStart(b: Block, scopes: seq<Scope>, c: Block, s: Walks.Step, out: OutPort)
    requires s.link.outport.Out? ==> s.link.outport.actor != ""
    requires Within(b, scopes, c) && PathOf(scopes) == s.path && StartOf(scopes, c, s.link.outport, out)
    ensures Walks.StartsAt(b, s, out)
    decreases |scopes|
  {
    if scopes != [] {
      var k, o := |scopes| - 1, s.link.outport;
      var d :| d in b.blocks && Scope(d.ns, d.args) == scopes[k] && Within(d, scopes[..k], c);
      assert s.path[1..] == PathOf(scopes[..k]);
      var out' := if k == 0 then o else Out(FullName(scopes[..k], o.actor), o.port);
      HasStart(d, scopes[..k], c, Walks.Step(s.path[1..], s.link), out');
      NameOutside(scopes, o.actor);
      assert out == PromoteOut(d.ns, out');
    }
  }

  lemma {:induction false} FindEnd(b: Block, s: Walks.Step, end: InPort) returns (scopes: seq<Scope>, c: Block)
    requires Walks.EndsAt(b, s, end) && (s.link.inport.In? ==> s.link.inport.actor != "")
    ensures Within(b, scopes, c) && PathOf(scopes) == s.path && EndOf(scopes, c, s.link.inport, end)
    decreases |s.path|
  {
    if s.path == [] {
      scopes, c := [], b;
    } else {
      var d, i :| d in b.blocks && d.ns == s.path[0] && Walks.EndsAt(d, Walks.Step(s.path[1..], s.link), i) &&
        end == PromoteIn(d.ns, i);
      var rest;
      rest, c := FindEnd(d, Walks.Step(s.path[1..], s.link), i);
      scopes := OneScopeMore(b, d, rest, c);
      NameOutside(scopes, s.link.inport.actor);
      assert scopes[..|scopes| - 1] == rest;
    }
  }

  lemma {:induction false} HasEnd(b: Block, scopes: seq<Scope>, c: Block, s: Walks.Step, end: InPort)
    requires s.link.inport.In? ==> s.link.inport.actor != ""
    requires Within(b, scopes, c) && PathOf(scopes) == s.path && EndOf(scopes, c, s.link.inport, end)
    ensures Walks.EndsAt(b, s, end)
    decreases |scopes|
  {
    if scopes != [] {
      var k, i := |scopes| - 1, s.link.inport;
      var d :| d in b.blocks && Scope(d.ns, d.args) == scopes[k] && Within(d, scopes[..k], c);
      assert s.path[1..] == PathOf(scopes[..k]);
      var end' := if k == 0 then i else In(FullName(scopes[..k], i.actor), i.port);
      HasEnd(d, scopes[..k], c, Walks.Step(s.path[1..], s.link), end');
      NameOutside(scopes, i.actor);
      assert end == PromoteIn(d.ns, end');
    }
  }

  /* ----- from the expanded tree to the script ----- */

  /** The tree that is flattened, with constants replaced. */
  ghost function Replaced(script: string, main: Block, defs: Definitions, depth: nat, defined: Values): Block {
    ReplaceBlock(Tree(script, main, defs, depth), defined)
  }

  ghost predicate SameSides(c: Block, written: Block, defs: Definitions) {
    c.links == written.links && forall name :: Walks.NoInstance(c, name) <==> !Hosts(written, defs, name)
  }

  lemma NoInstanceReplaced(c: Block, defined: Values, name: string)
    ensures Walks.NoInstance(ReplaceBlock(c, defined), name) <==> Walks.NoInstance(c, name)
  {
    hide ReplaceBlock;
    ReplacedIs(c, defined);
    if e :| e in ReplaceBlock(c, defined).blocks && e.ns == name {
      var d := BlockReplaced(c, defined, e);
    }
    if d :| d in c.blocks && d.ns == name {
      InReplaceBlocks(ReplaceBlock(d, defined), c.blocks, defined);
      ReplacedIs(d, defined);
    }
  }

  lemma MirrorsReplaced(c: Block, written: Block, defs: Definitions, defined: Values)
    requires Mirrors(c, written, defs)
    ensures SameSides(ReplaceBlock(c, defined), written, defs)
  {
    hide ReplaceBlock;
    forall name ensures Walks.NoInstance(ReplaceBlock(c, defined), name) <==> !Hosts(written, defs, name) {
      NoInstanceReplaced(c, defined, name);
    }
    LinksReplaced(c, defined);
  }

  lemma LinksReplaced(c: Block, defined: Values)
    ensures ReplaceBlock(c, defined).links == c.links
  {
  }

  /** Below the top, every block of the tree is where a chain leads. */
  lemma FindWritten(script: string, main: Block, defs: Definitions, rank: map<string, nat>, depth: nat,
                    defined: Values, scopes: seq<Scope>, c: Block) returns (insts: seq<Actor>)
    requires Expandable(main, defs, rank, depth)
    requires Within(Replaced(script, main, defs, depth, defined), scopes, c) && scopes != []
    ensures Chain(main, defs, insts) && PathOf(scopes) == [script] + Idents(insts)
    ensures forall ident :: FullName(scopes, ident) == NameIn(script, insts, ident)
    ensures SameSides(c, Inside(main, defs, insts), defs)
  {
    hide Expandable, Tree, ReplaceBlock, Mirrors, SameSides, ReplaceInScopes, InScript, FullName, NameIn;
    var scopes', c' := FindReplaced(Tree(script, main, defs, depth), defined, scopes, c);
    PathOfReplaced(scopes', defined);
    insts := FindInScript(script, main, defs, rank, depth, scopes', c');
    PathInto(script, insts);
    MirrorsReplaced(c', Inside(main, defs, insts), defs, defined);
    forall ident ensures FullName(scopes, ident) == NameIn(script, insts, ident) {
      NamesKept(scopes', defined, ident);
      NameInScript(script, insts, ident);
    }
  }

  lemma FollowWritten(script: string, main: Block, defs: Definitions, rank: map<string, nat>, depth: nat,
                      defined: Values, insts: seq<Actor>) returns (scopes: seq<Scope>, c: Block)
    requires Expandable(main, defs, rank, depth) && Chain(main, defs, insts)
    ensures Within(Replaced(script, main, defs, depth, defined), scopes, c) && scopes != []
    ensures PathOf(scopes) == [script] + Idents(insts)
    ensures forall ident :: FullName(scopes, ident) == NameIn(script, insts, ident)
    ensures SameSides(c, Inside(main, defs, insts), defs)
  {
    hide Expandable, Tree, ReplaceBlock, Mirrors, SameSides, ReplaceInScopes, InScript, FullName, NameIn;
    var scopes' := InScript(script, insts);
    var c' := FollowInScript(script, main, defs, rank, depth, insts);
    WithinReplaced(Tree(script, main, defs, depth), defined, scopes', c');
    scopes, c := ReplaceInScopes(scopes', defined), ReplaceBlock(c', defined);
    PathOfReplaced(scopes', defined);
    PathInto(script, insts);
    MirrorsReplaced(c', Inside(main, defs, insts), defs, defined);
    forall ident ensures FullName(scopes, ident) == NameIn(script, insts, ident) {
      NamesKept(scopes', defined, ident);
      NameInScript(script, insts, ident);
    }
  }

  lemma TopHasNoLinks(script: string, main: Block, defs: Definitions, depth: nat, defined: Values)
    ensures Replaced(script, main, defs, depth, defined).links == []
    ensures forall name :: Walks.NoInstance(Replaced(script, main, defs, depth, defined), name) <==> name != script
  {
    var tree := Tree(script, main, defs, depth);
    forall name ensures Walks.NoInstance(Replaced(script, main, defs, depth, defined), name) <==> name != script {
      NoInstanceReplaced(tree, defined, name);
      assert tree.blocks[0] in tree.blocks;
    }
  }

  lemma StepIsWritten(script: string, main: Block, defs: Definitions, rank: map<string, nat>, depth: nat,
                      defined: Values, s: Walks.Step)
    requires Expandable(main, defs, rank, depth)
    ensures Walks.StepIn(Replaced(script, main, defs, depth, defined), s) <==> IsWritten(s, script, main, defs)
  {
    hide Expandable, Replaced, FullName, NameIn, Idents;
    var tree := Replaced(script, main, defs, depth, defined);
    if Walks.StepIn(tree, s) {
      var c :| Walks.IsAt(tree, s.path, c) && s.link in c.links;
      var scopes := FindAt(tree, s.path, c);
      TopHasNoLinks(script, main, defs, depth, defined);
      var insts := FindWritten(script, main, defs, rank, depth, defined, scopes, c);
    }
    if IsWritten(s, script, main, defs) {
      var insts :| LeadsInto(s.path, script, main, defs, insts) && s.link in Inside(main, defs, insts).links;
      var scopes, c := FollowWritten(script, main, defs, rank, depth, defined, insts);
      WithinIsAt(tree, scopes, c);
    }
  }

  ghost predicate NamedEnds(l: Link) {
    (l.outport.Out? ==> l.outport.actor != "") && (l.inport.In? ==> l.inport.actor != "")
  }

  lemma StartIsWritten(script: string, main: Block, defs: Definitions, rank: map<string, nat>, depth: nat,
                       defined: Values, s: Walks.Step, out: OutPort)
    requires Expandable(main, defs, rank, depth) && NamedEnds(s.link) && s.path != []
    ensures Walks.StartsAt(Replaced(script, main, defs, depth, defined), s, out) <==>
              Begins(s, script, main, defs, out)
  {
    hide Expandable, Replaced, FullName, NameIn, Idents;
    var tree := Replaced(script, main, defs, depth, defined);
    if Walks.StartsAt(tree, s, out) {
      var scopes, c := FindStart(tree, s, out);
      var insts := FindWritten(script, main, defs, rank, depth, defined, scopes, c);
      assert LeadsInto(s.path, script, main, defs, insts);
    }
    if Begins(s, script, main, defs, out) {
      var insts :| LeadsInto(s.path, script, main, defs, insts) &&
        !Hosts(Inside(main, defs, insts), defs, s.link.outport.actor) &&
        out == Out(NameIn(script, insts, s.link.outport.actor), s.link.outport.port);
      var scopes, c := FollowWritten(script, main, defs, rank, depth, defined, insts);
      HasStart(tree, scopes, c, s, out);
    }
  }

  lemma EndIsWritten(script: string, main: Block, defs: Definitions, rank: map<string, nat>, depth: nat,
                     defined: Values, s: Walks.Step, end: InPort)
    requires Expandable(main, defs, rank, depth) && NamedEnds(s.link) && s.path != []
    ensures Walks.EndsAt(Replaced(script, main, defs, depth, defined), s, end) <==>
              Finishes(s, script, main, defs, end)
  {
    hide Expandable, Replaced, FullName, NameIn, Idents;
    var tree := Replaced(script, main, defs, depth, defined);
    if Walks.EndsAt(tree, s, end) {
      var scopes, c := FindEnd(tree, s, end);
      var insts := FindWritten(script, main, defs, rank, depth, defined, scopes, c);
      assert LeadsInto(s.path, script, main, defs, insts);
    }
    if Finishes(s, script, main, defs, end) {
      var insts :| LeadsInto(s.path, script, main, defs, insts) &&
        !Hosts(Inside(main, defs, insts), defs, s.link.inport.actor) &&
        end == In(NameIn(script, insts, s.link.inport.actor), s.link.inport.port);
      var scopes, c := FollowWritten(script, main, defs, rank, depth, defined, insts);
      HasEnd(tree, scopes, c, s, end);
    }
  }

  /** Ports in links are ports of something with a name. */
  ghost predicate AllNamed(main: Block, defs: Definitions) {
    && (forall l :: l in main.links ==> NamedEnds(l))
    && forall x, l :: x in defs && l in defs[x].links ==> NamedEnds(l)
  }

  lemma WrittenIsNamed(s: Walks.Step, script: string, main: Block, defs: Definitions)
    requires AllNamed(main, defs) && IsWritten(s, script, main, defs)
    ensures NamedEnds(s.link) && s.path != []
  {
    var insts :| LeadsInto(s.path, script, main, defs, insts) && s.link in Inside(main, defs, insts).links;
    if insts != [] {
      LastIsDefined(main, defs, insts);
    }
  }

  /** The walks through the expanded tree are those through the script. */
  lemma WalksAreWritten(script: string, main: Block, defs: Definitions, rank: map<string, nat>, depth: nat,
                        defined: Values, w: seq<Walks.Step>, x: Link)
    requires Expandable(main, defs, rank, depth) && AllNamed(main, defs)
    ensures Walks.Connects(Replaced(script, main, defs, depth, defined), w, x) <==>
              Goes(w, script, main, defs, x)
  {
    hide Expandable, AllNamed, Replaced, IsWritten, NamedEnds, Begins, Finishes;
    hide Walks.StepIn, Walks.StartsAt, Walks.EndsAt, Walks.Follows;
    forall i | 0 <= i < |w|
      ensures Walks.StepIn(Replaced(script, main, defs, depth, defined), w[i]) <==>
                IsWritten(w[i], script, main, defs)
    {
      StepIsWritten(script, main, defs, rank, depth, defined, w[i]);
    }
    if w != [] && forall i :: 0 <= i < |w| ==> IsWritten(w[i], script, main, defs) {
      WrittenIsNamed(w[0], script, main, defs);
      WrittenIsNamed(w[|w| - 1], script, main, defs);
      StartIsWritten(script, main, defs, rank, depth, defined, w[0], x.outport);
      EndIsWritten(script, main, defs, rank, depth, defined, w[|w| - 1], x.inport);
    }
  }

  lemma ReachableIsJoined(script: string, main: Block, defs: Definitions, rank: map<string, nat>, depth: nat,
                          defined: Values, x: Link)
    requires Expandable(main, defs, rank, depth) && AllNamed(main, defs)
    ensures Walks.Reachable(Replaced(script, main, defs, depth, defined), x) <==> Joined(x, script, main, defs)
  {
    hide Expandable, AllNamed, Replaced, Walks.Connects, Goes;
    forall w
      ensures Walks.Connects(Replaced(script, main, defs, depth, defined), w, x) <==>
                Goes(w, script, main, defs, x)
    {
      WalksAreWritten(script, main, defs, rank, depth, defined, w, x);
    }
  }

  /* ----- instances that are linked to themselves ----- */

  ghost predicate FreeAt(c: Block) {
    forall name :: !Walks.NoInstance(c, name) ==> LinkWeights.NoSelfLink(c.links, name)
  }

  lemma FreeAtTop(b: Block)
    requires SpliceLevels.SelfLinkFree(b)
    ensures FreeAt(b)
  {
  }

  lemma {:induction false} FreeWithin(b: Block, scopes: seq<Scope>, c: Block)
    requires SpliceLevels.SelfLinkFree(b) && Within(b, scopes, c)
    ensures FreeAt(c)
    decreases |scopes|
  {
    if scopes == [] {
      FreeAtTop(b);
    } else {
      var k := |scopes| - 1;
      var d :| d in b.blocks && Scope(d.ns, d.args) == scopes[k] && Within(d, scopes[..k], c);
      FreeWithin(d, scopes[..k], c);
    }
  }

  lemma {:induction false} FreeFromWithin(b: Block)
    requires forall scopes, c :: Within(b, scopes, c) ==> FreeAt(c)
    ensures SpliceLevels.SelfLinkFree(b)
    decreases b
  {
    assert Within(b, [], b);
    forall d | d in b.blocks ensures LinkWeights.NoSelfLink(b.links, d.ns) && SpliceLevels.SelfLinkFree(d) {
      assert !Walks.NoInstance(b, d.ns);
      forall scopes, c | Within(d, scopes, c) ensures FreeAt(c) {
        WithinOneMore(b, d, scopes, c);
      }
      FreeFromWithin(d);
    }
  }

  lemma FreeIsWritten(c: Block, written: Block, defs: Definitions)
    requires SameSides(c, written, defs)
    ensures FreeAt(c) <==> forall a :: !LinksItself(written, defs, a)
  {
    if FreeAt(c) {
      forall a ensures !LinksItself(written, defs, a) {
        assert a in written.actors && a.actorType in defs ==> Hosts(written, defs, a.ident);
      }
    }
    if forall a :: !LinksItself(written, defs, a) {
      forall name | !Walks.NoInstance(c, name) ensures LinkWeights.NoSelfLink(c.links, name) {
        assert Hosts(written, defs, name);
        var a :| a in written.actors && a.actorType in defs && a.ident == name;
        assert !LinksItself(written, defs, a);
      }
    }
  }

  /** No instance of the expanded tree is linked to itself if and only if none of the script is. */
  lemma FreeExactly(script: string, main: Block, defs: Definitions, rank: map<string, nat>, depth: nat,
                    defined: Values)
    requires Expandable(main, defs, rank, depth)
    ensures SpliceLevels.SelfLinkFree(Replaced(script, main, defs, depth, defined)) <==> NoneLinksItself(main, defs)
  {
    hide Expandable, Replaced, FullName, NameIn, SameSides, FreeAt, LinksItself, SpliceLevels.SelfLinkFree;
    var tree := Replaced(script, main, defs, depth, defined);
    if SpliceLevels.SelfLinkFree(tree) {
      forall insts | Chain(main, defs, insts) ensures forall a :: !LinksItself(Inside(main, defs, insts), defs, a) {
        var scopes, c := FollowWritten(script, main, defs, rank, depth, defined, insts);
        FreeWithin(tree, scopes, c);
        FreeIsWritten(c, Inside(main, defs, insts), defs);
      }
    }
    if NoneLinksItself(main, defs) {
      forall scopes, c | Within(tree, scopes, c) ensures FreeAt(c) {
        if scopes == [] {
          TopIsFree(script, main, defs, depth, defined);
        } else {
          var insts := FindWritten(script, main, defs, rank, depth, defined, scopes, c);
          FreeIsWritten(c, Inside(main, defs, insts), defs);
        }
      }
      FreeFromWithin(tree);
    }
  }

  lemma TopIsFree(script: string, main: Block, defs: Definitions, depth: nat, defined: Values)
    ensures FreeAt(Replaced(script, main, defs, depth, defined))
  {
    hide Replaced;
    TopHasNoLinks(script, main, defs, depth, defined);
  }
}
