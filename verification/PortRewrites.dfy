/** Rewriting literals, lists, transforms and voids into actors and plain links. */
module PortRewrites {
  import opened Options
  import opened GraphSyntax
  import opened PortNotation

  /** A name that a script can use. */
  predicate Plain(name: string) {
    name != "" && name[0] != '_'
  }

  /** A block on its way to plain links: with what the actors that were added without a label stand for,
      these actors, and those that were added with one. */
  datatype Graph = Graph(actors: seq<Actor>, links: seq<RawLink>, roles: Roles, made: seq<Actor>,
                         labelled: multiset<Actor>)

  /** What the script says: its own actors, its connections, and the actors it declares by labels. */
  datatype Written = Written(actors: seq<Actor>, wires: multiset<Wire>, labels: multiset<Actor>)

  /** The names in use when a pass starts, the letters that earlier passes put in generated names,
      and how many names this pass has generated. */
  datatype Naming = Naming(own: iset<string>, letters: set<char>, name: string, counter: nat)

  predicate Fits(a: Actor, role: Role) {
    match role
    case Constant(value) => a.actorType == "std.Constant" && a.args == [NamedArg("data", value)]
    case Transform(value, _) => a.actorType == "std.Constantify" && a.args == [NamedArg("constant", value)]
    case Silent => a.actorType == "flow.Void" && a.args == []
    case Swallows => a.actorType == "flow.Terminator" && a.args == []
  }

  /** There is exactly one actor for every role. */
  ghost predicate MadeFits(made: seq<Actor>, roles: Roles) {
    && (forall i :: 0 <= i < |made| ==> made[i].ident in roles && Fits(made[i], roles[made[i].ident]))
    && (forall i, j :: 0 <= i < j < |made| ==> made[i].ident != made[j].ident)
    && (forall x :: x in roles ==> exists i :: 0 <= i < |made| && made[i].ident == x)
  }

  /** The actors of the script come first, and then those that were added. */
  ghost predicate ActorsAre(actors: seq<Actor>, own: seq<Actor>, added: multiset<Actor>) {
    own <= actors && multiset(actors[|own|..]) == added
  }

  /** The link out of a transform, and the only one. */
  predicate LeadsOn(l: RawLink, x: string, behind: InPort) {
    l == RawLink(From(Out(x, "out")), One(To(behind)))
  }

  ghost predicate OnlyLeadOn(links: seq<RawLink>, roles: Roles) {
    forall i :: 0 <= i < |links| && Behind(links[i].source, roles) ==>
      LeadsOn(links[i], links[i].source.port.actor, roles[links[i].source.port.actor].behind)
  }

  ghost predicate AllLeadOn(links: seq<RawLink>, roles: Roles) {
    forall x :: x in roles && roles[x].Transform? ==>
      exists i :: 0 <= i < |links| && LeadsOn(links[i], x, roles[x].behind)
  }

  ghost predicate TransformsLinked(links: seq<RawLink>, roles: Roles) {
    OnlyLeadOn(links, roles) && AllLeadOn(links, roles)
  }

  ghost predicate NamesKnown(links: seq<RawLink>, own: iset<string>, roles: Roles) {
    forall x :: AnyNames(links, x) ==> x in own || x in roles
  }

  ghost predicate LabelsOwn(links: seq<RawLink>, own: iset<string>) {
    forall a :: a in Labels(links) ==> a.ident in own
  }

  predicate Earlier(x: string, letters: set<char>) {
    |x| > 1 && x[0] == '_' && x[1] in letters
  }

  /** Generated names come from an earlier pass, or are among the first ones of this pass. */
  ghost predicate NamesGiven(roles: Roles, naming: Naming) {
    && (forall x :: x in naming.own ==> Plain(x) && x !in roles)
    && naming.name != "" && naming.name[0] !in naming.letters
    && (forall x :: x in roles ==>
         Earlier(x, naming.letters) || exists j :: 0 < j <= naming.counter && x == Unique(naming.name, j))
  }

  ghost predicate Inv(g: Graph, naming: Naming, written: Written) {
    && Wires(g.links, g.roles) == written.wires
    && ActorsAre(g.actors, written.actors, g.labelled + multiset(g.made))
    && g.labelled + Labels(g.links) == written.labels
    && MadeFits(g.made, g.roles)
    && TransformsLinked(g.links, g.roles)
    && NamesKnown(g.links, naming.own, g.roles) && LabelsOwn(g.links, naming.own)
    && NamesGiven(g.roles, naming) && PortsRight(g.links, g.roles)
  }

  /** The next generated name. */
  function NextName(naming: Naming): string {
    Unique(naming.name, naming.counter + 1)
  }

  function Next(naming: Naming): Naming {
    naming.(counter := naming.counter + 1)
  }

  lemma NextIsFree(g: Graph, naming: Naming, written: Written)
    requires Inv(g, naming, written)
    ensures NextName(naming) !in naming.own && NextName(naming) !in g.roles && !AnyNames(g.links, NextName(naming))
  {
    hide Wires, ActorsAre, MadeFits, TransformsLinked, AnyNames;
    NextIsNew(g.roles, naming);
  }

  lemma NextIsNew(roles: Roles, naming: Naming)
    requires NamesGiven(roles, naming)
    ensures NextName(naming) !in naming.own && NextName(naming) !in roles
  {
    var x := NextName(naming);
    assert x[0] == '_' && x[1] == naming.name[0];
    forall j | 0 < j <= naming.counter ensures x != Unique(naming.name, j) {
      if x == Unique(naming.name, j) {
        UniqueInjective(naming.name, naming.counter + 1, j);
      }
    }
  }

  lemma GivenMore(roles: Roles, naming: Naming, role: Role)
    requires NamesGiven(roles, naming) && NextName(naming) !in naming.own
    ensures NamesGiven(roles[NextName(naming) := role], Next(naming))
  {
    var x := NextName(naming);
    forall y | y in roles[x := role]
      ensures Earlier(y, naming.letters) || exists j :: 0 < j <= naming.counter + 1 && y == Unique(naming.name, j)
    {
      if y != x && !Earlier(y, naming.letters) {
        var j :| 0 < j <= naming.counter && y == Unique(naming.name, j);
      }
    }
  }

  lemma MadeMore(made: seq<Actor>, roles: Roles, a: Actor, role: Role)
    requires MadeFits(made, roles) && a.ident !in roles && Fits(a, role)
    ensures MadeFits(made + [a], roles[a.ident := role])
  {
    var made', roles' := made + [a], roles[a.ident := role];
    forall x | x in roles' ensures exists i :: 0 <= i < |made'| && made'[i].ident == x {
      if x == a.ident {
        assert made'[|made|].ident == x;
      } else {
        var i :| 0 <= i < |made| && made[i].ident == x;
        assert made'[i].ident == x;
      }
    }
  }

  lemma ActorsMore(actors: seq<Actor>, own: seq<Actor>, added: multiset<Actor>, a: Actor)
    requires ActorsAre(actors, own, added)
    ensures ActorsAre(actors + [a], own, added + multiset{a})
  {
    assert (actors + [a])[|own|..] == actors[|own|..] + [a];
  }

  lemma AnyNamesUpdate(links: seq<RawLink>, i: nat, l: RawLink, x: string)
    requires i < |links| && AnyNames(links[i := l], x)
    ensures AnyNames(links, x) || Names(l, x)
  {
    var k :| 0 <= k < |links| && Names(links[i := l][k], x);
    if k != i {
      assert Names(links[k], x);
    }
  }

  /* ----- one new actor at a time ----- */

  /** A change of one link that leaves its connections and labels alone and names only the new actor
      besides what it named before. */
  ghost predicate Exchanges(l: RawLink, l': RawLink, roles: Roles, x: string, role: Role) {
    && LinkWires(l', roles[x := role]) == LinkWires(l, roles)
    && !Behind(l.source, roles) && !Behind(l'.source, roles[x := role])
    && (forall y :: Names(l', y) ==> Names(l, y) || y == x)
    && LinkLabels(l') == LinkLabels(l)
    && (LinkRight(l, roles) ==> LinkRight(l', roles[x := role]))
  }

  ghost function Exchange(g: Graph, i: nat, l: RawLink, a: Actor, role: Role): Graph
    requires i < |g.links|
  {
    Graph(g.actors + [a], g.links[i := l], g.roles[a.ident := role], g.made + [a], g.labelled)
  }

  /** A labelled part of a link is replaced by the actor with the label. */
  ghost predicate Releases(l: RawLink, l': RawLink, roles: Roles, a: Actor) {
    && LinkWires(l', roles) == LinkWires(l, roles)
    && !Behind(l.source, roles) && !Behind(l'.source, roles)
    && (forall y :: Names(l', y) ==> Names(l, y))
    && LinkLabels(l) == LinkLabels(l') + multiset{a}
    && (LinkRight(l, roles) ==> LinkRight(l', roles))
  }

  ghost function Release(g: Graph, i: nat, l: RawLink, a: Actor): Graph
    requires i < |g.links|
  {
    Graph(g.actors + [a], g.links[i := l], g.roles, g.made, g.labelled + multiset{a})
  }

  lemma AddMade(labelled: multiset<Actor>, made: seq<Actor>, a: Actor)
    ensures labelled + multiset(made + [a]) == labelled + multiset(made) + multiset{a}
  {
  }

  lemma ExchangeLinked(links: seq<RawLink>, links': seq<RawLink>, i: nat, roles: Roles, x: string, role: Role)
    requires i < |links| == |links'| && links' == links[i := links'[i]] && TransformsLinked(links, roles)
    requires x !in roles && !AnyNames(links, x) && !Behind(links[i].source, roles)
    requires !Behind(links'[i].source, roles[x := role])
    ensures OnlyLeadOn(links', roles[x := role]) && AllLeadOn(links', roles)
  {
    forall k | 0 <= k < |links| && Behind(links'[k].source, roles[x := role])
      ensures LeadsOn(links'[k], links'[k].source.port.actor, roles[x := role][links'[k].source.port.actor].behind)
    {
      assert k != i && !Names(links[k], x);
      assert Behind(links[k].source, roles);
    }
    forall y | y in roles && roles[y].Transform?
      ensures exists k :: 0 <= k < |links| && LeadsOn(links'[k], y, roles[y].behind)
    {
      var k :| 0 <= k < |links| && LeadsOn(links[k], y, roles[y].behind);
      assert Behind(links[k].source, roles);
      assert LeadsOn(links'[k], y, roles[y].behind);
    }
  }

  lemma ExchangeStep(g: Graph, naming: Naming, written: Written, i: nat, l: RawLink, a: Actor, role: Role)
    requires Inv(g, naming, written) && i < |g.links| && a.ident == NextName(naming) && Fits(a, role)
    requires !role.Transform?
    requires Exchanges(g.links[i], l, g.roles, a.ident, role)
    ensures Inv(Exchange(g, i, l, a, role), Next(naming), written)
  {
    hide ActorsAre, MadeFits, TransformsLinked, NamesGiven, Fits, AnyNames;
    hide Names, LinkWires, LinkLabels, Behind, NextName, LinkRight;
    var x, links' := a.ident, g.links[i := l];
    NextIsFree(g, naming, written);
    MadeMore(g.made, g.roles, a, role);
    AddMade(g.labelled, g.made, a);
    ActorsMore(g.actors, written.actors, g.labelled + multiset(g.made), a);
    GivenMore(g.roles, naming, role);
    WiresExchange(g.links, i, l, g.roles, x, role);
    LinkedExchange(g.links, i, l, g.roles, x, role);
    RightUpdate(g.links, i, l, g.roles, x, role);
    forall y | AnyNames(links', y) ensures y in naming.own || y in g.roles[x := role] {
      AnyNamesUpdate(g.links, i, l, y);
      NamesOfLink(g.links, i, y);
    }
    LabelsUpdate(g.links, i, l);
  }

  lemma ReleaseStep(g: Graph, naming: Naming, written: Written, i: nat, l: RawLink, a: Actor)
    requires Inv(g, naming, written) && i < |g.links| && Releases(g.links[i], l, g.roles, a)
    ensures Inv(Release(g, i, l, a), naming, written)
  {
    hide ActorsAre, MadeFits, TransformsLinked, NamesGiven, AnyNames, Names;
    hide LinkWires, LinkLabels, Behind, Wires, Labels, LinkRight;
    var links' := g.links[i := l];
    ActorsMore(g.actors, written.actors, g.labelled + multiset(g.made), a);
    assert g.labelled + multiset(g.made) + multiset{a} == g.labelled + multiset{a} + multiset(g.made);
    WiresUpdate(g.links, i, l, g.roles);
    LinkedSame(g.links, i, l, g.roles);
    forall y | AnyNames(links', y) ensures y in naming.own || y in g.roles {
      AnyNamesUpdate(g.links, i, l, y);
      NamesOfLink(g.links, i, y);
    }
    LabelsUpdate(g.links, i, l);
  }

  lemma NamesOfLink(links: seq<RawLink>, i: nat, y: string)
    requires i < |links|
    ensures Names(links[i], y) ==> AnyNames(links, y)
  {
  }

  lemma WiresExchange(links: seq<RawLink>, i: nat, l: RawLink, roles: Roles, x: string, role: Role)
    requires i < |links| && !AnyNames(links, x) && LinkWires(l, roles[x := role]) == LinkWires(links[i], roles)
    ensures Wires(links[i := l], roles[x := role]) == Wires(links, roles)
  {
    hide LinkWires, Names;
    var roles' := roles[x := role];
    WiresFrame(links, roles, x, role);
    WiresUpdate(links, i, l, roles');
    LinkFrame(links, i, roles, x, role);
  }

  lemma LinkFrame(links: seq<RawLink>, i: nat, roles: Roles, x: string, role: Role)
    requires i < |links| && !AnyNames(links, x)
    ensures LinkWires(links[i], roles[x := role]) == LinkWires(links[i], roles)
  {
    assert !Names(links[i], x);
    LinkWiresFrame(links[i], roles, x, role);
  }

  lemma LinkedExchange(links: seq<RawLink>, i: nat, l: RawLink, roles: Roles, x: string, role: Role)
    requires i < |links| && TransformsLinked(links, roles) && x !in roles && !AnyNames(links, x) && !role.Transform?
    requires !Behind(links[i].source, roles) && !Behind(l.source, roles[x := role])
    ensures TransformsLinked(links[i := l], roles[x := role])
  {
    ExchangeLinked(links, links[i := l], i, roles, x, role);
  }

  /** No link out of a transform is touched. */
  lemma LinkedSame(links: seq<RawLink>, i: nat, l: RawLink, roles: Roles)
    requires i < |links| && TransformsLinked(links, roles) && !Behind(links[i].source, roles)
    requires !Behind(l.source, roles)
    ensures TransformsLinked(links[i := l], roles)
  {
    var links' := links[i := l];
    forall y | y in roles && roles[y].Transform?
      ensures exists k :: 0 <= k < |links'| && LeadsOn(links'[k], y, roles[y].behind)
    {
      var k :| 0 <= k < |links| && LeadsOn(links[k], y, roles[y].behind);
      assert Behind(links[k].source, roles);
      assert LeadsOn(links'[k], y, roles[y].behind);
    }
  }

  lemma LinkedMore(links: seq<RawLink>, l: RawLink, roles: Roles)
    requires TransformsLinked(links, roles) && !Behind(l.source, roles)
    ensures TransformsLinked(links + [l], roles)
  {
    var more := links + [l];
    forall y | y in roles && roles[y].Transform?
      ensures exists k :: 0 <= k < |more| && LeadsOn(more[k], y, roles[y].behind)
    {
      var k :| 0 <= k < |links| && LeadsOn(links[k], y, roles[y].behind);
      assert LeadsOn(more[k], y, roles[y].behind);
    }
  }

  /* ----- transforms ----- */

  function LeadOn(x: string, behind: InPort): RawLink {
    RawLink(From(Out(x, "out")), One(To(behind)))
  }

  ghost function Insert(g: Graph, i: nat, a: Actor, role: Role): Graph
    requires i < |g.links| && role.Transform?
  {
    Graph(g.actors + [a], g.links[i := g.links[i].(target := One(To(In(a.ident, "in"))))] +
          [LeadOn(a.ident, role.behind)],
          g.roles[a.ident := role], g.made + [a], g.labelled)
  }

  ghost function ReleaseInsert(g: Graph, i: nat, a: Actor, behind: InPort): Graph
    requires i < |g.links|
  {
    Graph(g.actors + [a], g.links[i := g.links[i].(target := One(To(In(a.ident, "in"))))] + [LeadOn(a.ident, behind)],
          g.roles, g.made, g.labelled + multiset{a})
  }

  lemma InsertLinked(links: seq<RawLink>, i: nat, l: RawLink, roles: Roles, x: string, role: Role)
    requires i < |links| && TransformsLinked(links, roles) && x !in roles && !AnyNames(links, x) && role.Transform?
    requires !Behind(links[i].source, roles) && !Behind(l.source, roles[x := role])
    ensures TransformsLinked(links[i := l] + [LeadOn(x, role.behind)], roles[x := role])
  {
    var on := LeadOn(x, role.behind);
    var links' := links[i := l];
    ExchangeLinked(links, links', i, roles, x, role);
    var more := links' + [on];
    var roles' := roles[x := role];
    forall y | y in roles' && roles'[y].Transform?
      ensures exists k :: 0 <= k < |more| && LeadsOn(more[k], y, roles'[y].behind)
    {
      if y == x {
        assert LeadsOn(more[|links'|], x, role.behind);
      } else {
        var k :| 0 <= k < |links'| && LeadsOn(links'[k], y, roles[y].behind);
        assert LeadsOn(more[k], y, roles[y].behind);
      }
    }
  }

  lemma AnyNamesMore(links: seq<RawLink>, l: RawLink, x: string)
    ensures AnyNames(links + [l], x) ==> AnyNames(links, x) || Names(l, x)
  {
    if AnyNames(links + [l], x) {
      var k :| 0 <= k < |links| + 1 && Names((links + [l])[k], x);
      assert k < |links| ==> Names(links[k], x);
    }
  }

  lemma OneSinkNames(l: RawLink, y: string)
    requires l.target.One?
    ensures Names(l, y) <==> SourceNames(l.source, y) || SinkNames(l.target.sink, y)
  {
    assert SinksOf(l)[0] == l.target.sink;
  }

  /** A link that arrives at nothing but the new actor. */
  lemma RightAlone(l: RawLink, l': RawLink, roles: Roles, x: string, role: Role)
    requires l'.source == l.source && l'.target.One? && l'.target.sink.To? && l'.target.sink.port.In?
    requires !SourceNames(l.source, x)
    requires ArrivesRight(l'.target.sink.port, roles[x := role])
    ensures LinkRight(l, roles) ==> LinkRight(l', roles[x := role])
  {
  }

  /** A link that leaves the new actor, and arrives where it did. */
  lemma RightFromNew(l: RawLink, l': RawLink, roles: Roles, x: string, role: Role)
    requires l'.target == l.target && l'.source.From? && !Names(l, x)
    requires LeavesRight(l'.source.port, roles[x := role])
    ensures LinkRight(l, roles) ==> LinkRight(l', roles[x := role])
  {
    if LinkRight(l, roles) {
      RightFrame(l, roles, x, role);
      assert SinksOf(l') == SinksOf(l);
    }
  }

  /** The link to a transform stands for the same connection. */
  lemma BeforeTransform(l: RawLink, roles: Roles, x: string, value: Arg, port: InPort)
    requires l.target == One(Through(value, None, port)) && !Names(l, x) && !Behind(l.source, roles)
    ensures Exchanges(l, l.(target := One(To(In(x, "in")))), roles, x, Transform(value, port))
  {
    hide Names, LinkWires, LinkLabels, OriginOf;
    var role, l' := Transform(value, port), l.(target := One(To(In(x, "in"))));
    OneSink(l, roles);
    OneSink(l', roles[x := role]);
    OneSinkNames(l, x);
    SourceFrame(l.source, roles, x, role);
    RightAlone(l, l', roles, x, role);
    forall y ensures Names(l', y) ==> Names(l, y) || y == x {
      OneSinkNames(l, y);
      OneSinkNames(l', y);
    }
  }

  /** The link behind a transform adds no connection, no label and no name. */
  lemma BehindTransform(l: RawLink, roles: Roles, x: string, value: Arg, given: Option<string>, port: InPort)
    requires l.target == One(Through(value, given, port))
    ensures var on := LeadOn(x, port);
      && LinkWires(on, roles[x := Transform(value, port)]) == multiset{} && LinkLabels(on) == multiset{}
      && forall y :: Names(on, y) ==> y == x || Names(l, y)
  {
    var on := LeadOn(x, port);
    OneSink(on, roles[x := Transform(value, port)]);
    assert SinksOf(l) == [Through(value, given, port)] && SinksOf(on) == [To(port)];
    forall y | Names(on, y) ensures y == x || Names(l, y) {
      assert y != x ==> SinkNames(SinksOf(l)[0], y);
    }
  }

  /** With a label, the two links are two connections as well. */
  lemma AroundTransform(l: RawLink, roles: Roles, x: string, value: Arg, port: InPort)
    requires l.target == One(Through(value, Some(x), port)) && x !in roles && !Behind(l.source, roles)
    ensures var l', on := l.(target := One(To(In(x, "in")))), LeadOn(x, port);
      && LinkWires(l, roles) == LinkWires(l', roles) + LinkWires(on, roles)
      && LinkLabels(l) == LinkLabels(l') + multiset{TransformActor(x, value)} && LinkLabels(on) == multiset{}
      && !Behind(l'.source, roles) && !Behind(on.source, roles)
      && (forall y :: Names(l', y) || Names(on, y) ==> Names(l, y))
  {
    hide Names, LinkWires, LinkLabels;
    var l', on := l.(target := One(To(In(x, "in")))), LeadOn(x, port);
    OneSink(l, roles);
    OneSink(l', roles);
    OneSink(on, roles);
    forall y ensures Names(l', y) || Names(on, y) ==> Names(l, y) {
      OneSinkNames(l, y);
      OneSinkNames(l', y);
      OneSinkNames(on, y);
    }
  }

  lemma OneSink(l: RawLink, roles: Roles)
    requires l.target.One?
    ensures LinkWires(l, roles) ==
              if Behind(l.source, roles) then multiset{} else SinkWire(OriginOf(l.source, roles), l.target.sink, roles)
    ensures LinkLabels(l) == SourceLabels(l.source) + SinkLabel(l.target.sink)
  {
    hide SinkWire, SinkLabel, OriginOf;
    var sinks := SinksOf(l);
    assert sinks == [l.target.sink] && sinks[..0] == [];
    assert SinkWires(OriginOf(l.source, roles), sinks, roles) ==
             multiset{} + SinkWire(OriginOf(l.source, roles), l.target.sink, roles);
    assert SinkLabels(sinks) == multiset{} + SinkLabel(l.target.sink);
  }

  /** The link behind a transform leaves it from its outport, and arrives where the transformed link did. */
  lemma RightBehind(l: RawLink, roles: Roles, x: string, value: Arg, port: InPort)
    requires l.target == One(Through(value, None, port)) && LinkRight(l, roles) && !Names(l, x)
    ensures LinkRight(LeadOn(x, port), roles[x := Transform(value, port)])
  {
    assert SinksOf(l)[0] == l.target.sink && !SinkNames(SinksOf(l)[0], x);
    assert SinksOf(LeadOn(x, port)) == [To(port)];
  }

  lemma RightAround(l: RawLink, roles: Roles, x: string, port: InPort)
    requires l.target.One? && l.target.sink.Through? && l.target.sink.port == port && LinkRight(l, roles) && x !in roles
    ensures LinkRight(l.(target := One(To(In(x, "in")))), roles) && LinkRight(LeadOn(x, port), roles)
  {
    assert SinksOf(l)[0] == l.target.sink;
  }

  lemma InsertStep(g: Graph, naming: Naming, written: Written, i: nat, a: Actor, value: Arg, port: InPort)
    requires Inv(g, naming, written) && i < |g.links| && g.links[i].target == One(Through(value, None, port))
    requires a.ident == NextName(naming) && Fits(a, Transform(value, port))
    ensures Inv(Insert(g, i, a, Transform(value, port)), Next(naming), written)
  {
    hide ActorsAre, MadeFits, TransformsLinked, NamesGiven, Fits, AnyNames, Names;
    hide LinkWires, LinkLabels, Behind, Exchanges, NextName, LinkRight;
    var l, x, role := g.links[i], a.ident, Transform(value, port);
    var l', on := l.(target := One(To(In(x, "in")))), LeadOn(x, port);
    var links', roles' := g.links[i := l'], g.roles[x := role];
    NextIsFree(g, naming, written);
    NamesOfLink(g.links, i, x);
    NotBehind(g.links, i, g.roles);
    BeforeTransform(l, g.roles, x, value, port);
    BehindTransform(l, g.roles, x, value, None, port);
    ExchangeParts(l, l', g.roles, x, role);
    MadeMore(g.made, g.roles, a, role);
    AddMade(g.labelled, g.made, a);
    ActorsMore(g.actors, written.actors, g.labelled + multiset(g.made), a);
    GivenMore(g.roles, naming, role);
    WiresExchange(g.links, i, l', g.roles, x, role);
    WiresConcat(links', [on], roles');
    WiresOne(on, roles');
    InsertLinked(g.links, i, l', g.roles, x, role);
    RightUpdate(g.links, i, l', g.roles, x, role);
    RightBehind(l, g.roles, x, value, port);
    InsertNames(g.links, i, l', on, x);
    InsertLabels(g.links, i, l', on);
  }

  lemma ReleaseInsertStep(g: Graph, naming: Naming, written: Written, i: nat, x: string, value: Arg, port: InPort)
    requires Inv(g, naming, written) && i < |g.links| && g.links[i].target == One(Through(value, Some(x), port))
    ensures Inv(ReleaseInsert(g, i, TransformActor(x, value), port), naming, written)
  {
    hide ActorsAre, MadeFits, TransformsLinked, NamesGiven, AnyNames, Names;
    hide LinkWires, LinkLabels, Behind, Wires, Labels, LinkRight;
    var l, a := g.links[i], TransformActor(x, value);
    var l', on := l.(target := One(To(In(x, "in")))), LeadOn(x, port);
    var links' := g.links[i := l'];
    NotBehind(g.links, i, g.roles);
    LabelIsOwn(g, naming, written, i, a);
    AroundTransform(l, g.roles, x, value, port);
    ActorsMore(g.actors, written.actors, g.labelled + multiset(g.made), a);
    assert g.labelled + multiset(g.made) + multiset{a} == g.labelled + multiset{a} + multiset(g.made);
    WiresRelease(g.links, i, l', on, g.roles);
    LinkedSame(g.links, i, l', g.roles);
    LinkedMore(links', on, g.roles);
    RightAround(l, g.roles, x, port);
    assert Names(l, x) by {
      OneSinkNames(l, x);
    }
    NamesOfLink(g.links, i, x);
    InsertNames(g.links, i, l', on, x);
    LabelsRelease(g.links, i, l', on, a);
    assert Wires(links' + [on], g.roles) == written.wires;
    assert NamesKnown(links' + [on], naming.own, g.roles) && LabelsOwn(links' + [on], naming.own);
    assert g.labelled + multiset{a} + Labels(links' + [on]) == written.labels;
  }

  lemma WiresRelease(links: seq<RawLink>, i: nat, l: RawLink, on: RawLink, roles: Roles)
    requires i < |links| && LinkWires(links[i], roles) == LinkWires(l, roles) + LinkWires(on, roles)
    ensures Wires(links[i := l] + [on], roles) == Wires(links, roles)
  {
    hide LinkWires;
    WiresUpdate(links, i, l, roles);
    WiresConcat(links[i := l], [on], roles);
    WiresOne(on, roles);
  }

  lemma LabelsRelease(links: seq<RawLink>, i: nat, l: RawLink, on: RawLink, a: Actor)
    requires i < |links| && LinkLabels(links[i]) == LinkLabels(l) + multiset{a} && LinkLabels(on) == multiset{}
    ensures Labels(links) == Labels(links[i := l] + [on]) + multiset{a}
  {
    hide LinkLabels;
    LabelsUpdate(links, i, l);
    LabelsConcat(links[i := l], [on]);
    LabelsOne(on);
  }

  /** The name of a label is the script's, and has not been generated. */
  lemma LabelIsOwn(g: Graph, naming: Naming, written: Written, i: nat, a: Actor)
    requires Inv(g, naming, written) && i < |g.links|
    requires a in SourceLabels(g.links[i].source) || (g.links[i].target.One? && a in SinkLabel(g.links[i].target.sink))
    ensures a.ident in naming.own && a.ident !in g.roles
  {
    hide ActorsAre, MadeFits, TransformsLinked, NamesKnown, Wires;
    LabelsUpdate(g.links, i, g.links[i]);
    if g.links[i].target.One? {
      OneSink(g.links[i], g.roles);
    }
    assert a in LinkLabels(g.links[i]);
    assert a in Labels(g.links);
  }

  lemma InsertNames(links: seq<RawLink>, i: nat, l: RawLink, on: RawLink, x: string)
    requires i < |links| && (forall y :: Names(l, y) ==> Names(links[i], y) || y == x)
    requires (forall y :: Names(on, y) ==> y == x || Names(links[i], y))
    ensures forall y :: AnyNames(links[i := l] + [on], y) ==> y == x || AnyNames(links, y)
  {
    forall y | AnyNames(links[i := l] + [on], y) ensures y == x || AnyNames(links, y) {
      AnyNamesMore(links[i := l], on, y);
      NamesOfLink(links, i, y);
      if AnyNames(links[i := l], y) {
        AnyNamesUpdate(links, i, l, y);
      }
    }
  }

  lemma InsertLabels(links: seq<RawLink>, i: nat, l: RawLink, on: RawLink)
    requires i < |links| && LinkLabels(links[i]) == LinkLabels(l) && LinkLabels(on) == multiset{}
    ensures Labels(links) == Labels(links[i := l] + [on])
  {
    hide LinkLabels;
    LabelsUpdate(links, i, l);
    LabelsConcat(links[i := l], [on]);
    LabelsOne(on);
  }

  /** The link behind a transform has no other transform in it. */
  lemma NotBehind(links: seq<RawLink>, i: nat, roles: Roles)
    requires i < |links| && TransformsLinked(links, roles) && !(links[i].target.One? && links[i].target.sink.To?)
    ensures !Behind(links[i].source, roles)
  {
  }

  lemma ExchangeParts(l: RawLink, l': RawLink, roles: Roles, x: string, role: Role)
    requires Exchanges(l, l', roles, x, role)
    ensures LinkWires(l', roles[x := role]) == LinkWires(l, roles) && LinkLabels(l) == LinkLabels(l')
    ensures LinkRight(l, roles) ==> LinkRight(l', roles[x := role])
    ensures !Behind(l.source, roles) && !Behind(l'.source, roles[x := role])
    ensures forall y :: Names(l', y) ==> Names(l, y) || y == x
  {
  }

  /* ----- literals and voids ----- */

  lemma SourceNamesOnly(l: RawLink, source: Source, x: string)
    requires !l.source.From? && source.From? && source.port.Out? && source.port.actor == x
    ensures forall y :: Names(l.(source := source), y) ==> Names(l, y) || y == x
  {
    assert SinksOf(l.(source := source)) == SinksOf(l);
  }

  /** A constant actor sends what the literal stands for. */
  lemma LiteralExchange(l: RawLink, roles: Roles, x: string)
    requires l.source.Literal? && l.source.given == None && !Names(l, x)
    ensures Exchanges(l, l.(source := From(Out(x, "token"))), roles, x, Constant(l.source.value))
  {
    hide SinkWires;
    var l' := l.(source := From(Out(x, "token")));
    SourceNamesOnly(l, l'.source, x);
    assert SinksOf(l') == SinksOf(l);
    SinkWiresFrame(OriginOf(l.source, roles), SinksOf(l), roles, x, Constant(l.source.value));
    RightFromNew(l, l', roles, x, Constant(l.source.value));
  }

  /** With a label, the actor is one of the script. */
  lemma LiteralRelease(l: RawLink, roles: Roles, x: string)
    requires l.source.Literal? && l.source.given == Some(x) && x !in roles
    ensures Releases(l, l.(source := From(Out(x, "token"))), roles, ConstantActor(x, l.source.value))
  {
    hide SinkWires;
    var l' := l.(source := From(Out(x, "token")));
    assert SinksOf(l') == SinksOf(l);
    forall y ensures Names(l', y) ==> Names(l, y) {
      assert Names(l', y) && !SourceNames(l'.source, y) ==>
               exists i :: 0 <= i < |SinksOf(l)| && SinkNames(SinksOf(l)[i], y);
    }
  }

  lemma VoidSourceExchange(l: RawLink, roles: Roles, x: string)
    requires l.source.NoSource? && !Names(l, x)
    ensures Exchanges(l, l.(source := From(Out(x, "void"))), roles, x, Role.Silent)
  {
    hide SinkWires;
    var l' := l.(source := From(Out(x, "void")));
    SourceNamesOnly(l, l'.source, x);
    assert SinksOf(l') == SinksOf(l);
    SinkWiresFrame(OriginOf(l.source, roles), SinksOf(l), roles, x, Role.Silent);
    RightFromNew(l, l', roles, x, Role.Silent);
  }

  lemma VoidSinkExchange(l: RawLink, roles: Roles, x: string)
    requires l.target == One(NoSink) && !Names(l, x) && !Behind(l.source, roles)
    ensures Exchanges(l, l.(target := One(To(In(x, "void")))), roles, x, Role.Swallows)
  {
    hide Names, LinkWires, LinkLabels, OriginOf;
    var l' := l.(target := One(To(In(x, "void"))));
    OneSinkNames(l, x);
    SourceFrame(l.source, roles, x, Role.Swallows);
    RightAlone(l, l', roles, x, Role.Swallows);
    OneSink(l, roles);
    OneSink(l', roles[x := Role.Swallows]);
    forall y ensures Names(l', y) ==> Names(l, y) || y == x {
      OneSinkNames(l, y);
      OneSinkNames(l', y);
    }
  }

  /* ----- lists ----- */

  /** One link for every port of the list. */
  function Split(source: Source, sinks: seq<Sink>): seq<RawLink> {
    if sinks == [] then [] else Split(source, sinks[..|sinks| - 1]) + [RawLink(source, One(sinks[|sinks| - 1]))]
  }

  /** The links without a list stay where they are. */
  function Singles(links: seq<RawLink>): seq<RawLink> {
    if links == [] then []
    else Singles(links[..|links| - 1]) + if links[|links| - 1].target.One? then [links[|links| - 1]] else []
  }

  /** The links that replace those with a list. */
  function Splits(links: seq<RawLink>): seq<RawLink> {
    if links == [] then []
    else Splits(links[..|links| - 1]) +
         if links[|links| - 1].target.Many? then Split(links[|links| - 1].source, links[|links| - 1].target.sinks)
           else []
  }

  lemma ManySinks(source: Source, sinks: seq<Sink>, roles: Roles)
    ensures LinkWires(RawLink(source, Many(sinks)), roles) ==
            if Behind(source, roles) then multiset{} else SinkWires(OriginOf(source, roles), sinks, roles)
    ensures LinkLabels(RawLink(source, Many(sinks))) == SourceLabels(source) + SinkLabels(sinks)
  {
  }

  lemma {:induction false} SplitWires(source: Source, sinks: seq<Sink>, roles: Roles)
    ensures Wires(Split(source, sinks), roles) == LinkWires(RawLink(source, Many(sinks)), roles)
    ensures !source.Literal? ==> Labels(Split(source, sinks)) == LinkLabels(RawLink(source, Many(sinks)))
  {
    hide LinkWires, LinkLabels, Behind;
    ManySinks(source, sinks, roles);
    if sinks != [] {
      var front, last := sinks[..|sinks| - 1], RawLink(source, One(sinks[|sinks| - 1]));
      SplitWires(source, front, roles);
      ManySinks(source, front, roles);
      WiresConcat(Split(source, front), [last], roles);
      LabelsConcat(Split(source, front), [last]);
      WiresOne(last, roles);
      LabelsOne(last);
      OneSink(last, roles);
    }
  }

  lemma {:induction false} SplitNames(source: Source, sinks: seq<Sink>, y: string)
    requires AnyNames(Split(source, sinks), y)
    ensures Names(RawLink(source, Many(sinks)), y)
  {
    var front, last := sinks[..|sinks| - 1], RawLink(source, One(sinks[|sinks| - 1]));
    AnyNamesMore(Split(source, front), last, y);
    OneSinkNames(last, y);
    var l, shorter := RawLink(source, Many(sinks)), RawLink(source, Many(front));
    assert SinksOf(l) == sinks && SinksOf(shorter) == front;
    if AnyNames(Split(source, front), y) {
      SplitNames(source, front, y);
      if k :| 0 <= k < |front| && SinkNames(front[k], y) {
        assert SinkNames(SinksOf(l)[k], y);
      }
    } else if SinkNames(last.target.sink, y) {
      assert SinkNames(SinksOf(l)[|front|], y);
    }
  }

  ghost predicate NoLiterals(links: seq<RawLink>) {
    forall i :: 0 <= i < |links| ==> !links[i].source.Literal?
  }

  ghost predicate NoLists(links: seq<RawLink>) {
    forall i :: 0 <= i < |links| ==> links[i].target.One?
  }

  lemma KeepOne(singles: seq<RawLink>, splits: seq<RawLink>, front: seq<RawLink>, l: RawLink, roles: Roles)
    requires Wires(singles, roles) + Wires(splits, roles) == Wires(front, roles)
    requires Labels(singles) + Labels(splits) == Labels(front)
    ensures Wires(singles + [l], roles) + Wires(splits, roles) == Wires(front + [l], roles)
    ensures Labels(singles + [l]) + Labels(splits) == Labels(front + [l])
  {
    hide LinkWires, LinkLabels;
    WiresConcat(singles, [l], roles);
    WiresConcat(front, [l], roles);
    LabelsConcat(singles, [l]);
    LabelsConcat(front, [l]);
  }

  lemma KeepMany(singles: seq<RawLink>, splits: seq<RawLink>, front: seq<RawLink>, l: RawLink, roles: Roles)
    requires Wires(singles, roles) + Wires(splits, roles) == Wires(front, roles)
    requires Labels(singles) + Labels(splits) == Labels(front)
    requires l.target.Many? && !l.source.Literal?
    ensures Wires(singles, roles) + Wires(splits + Split(l.source, l.target.sinks), roles) == Wires(front + [l], roles)
    ensures Labels(singles) + Labels(splits + Split(l.source, l.target.sinks)) == Labels(front + [l])
  {
    hide LinkWires, LinkLabels;
    var split := Split(l.source, l.target.sinks);
    assert l == RawLink(l.source, Many(l.target.sinks));
    SplitWires(l.source, l.target.sinks, roles);
    WiresConcat(splits, split, roles);
    WiresConcat(front, [l], roles);
    WiresOne(l, roles);
    LabelsConcat(splits, split);
    LabelsConcat(front, [l]);
    LabelsOne(l);
  }

  /** Taking the lists apart keeps all connections and all labels. */
  lemma {:induction false} ListsKeep(links: seq<RawLink>, roles: Roles)
    requires NoLiterals(links)
    ensures Wires(Singles(links), roles) + Wires(Splits(links), roles) == Wires(links, roles)
    ensures Labels(Singles(links)) + Labels(Splits(links)) == Labels(links)
  {
    hide LinkWires, LinkLabels;
    if links == [] {
    } else {
      var front, last := links[..|links| - 1], links[|links| - 1];
      ListsKeep(front, roles);
      assert links == front + [last];
      if last.target.One? {
        KeepOne(Singles(front), Splits(front), front, last, roles);
        assert Splits(links) == Splits(front);
      } else {
        KeepMany(Singles(front), Splits(front), front, last, roles);
        assert Singles(links) == Singles(front);
      }
    }
  }

  lemma AnyNamesConcat(a: seq<RawLink>, b: seq<RawLink>, y: string)
    ensures AnyNames(a + b, y) <==> AnyNames(a, y) || AnyNames(b, y)
  {
    if i :| 0 <= i < |a| && Names(a[i], y) {
      assert Names((a + b)[i], y);
    }
    if i :| 0 <= i < |b| && Names(b[i], y) {
      assert Names((a + b)[|a| + i], y);
    }
    if i :| 0 <= i < |a + b| && Names((a + b)[i], y) {
      assert if i < |a| then Names(a[i], y) else Names(b[i - |a|], y);
    }
  }

  lemma {:induction false} ListsNames(links: seq<RawLink>, y: string)
    requires AnyNames(Singles(links), y) || AnyNames(Splits(links), y)
    ensures AnyNames(links, y)
  {
    hide AnyNames, Names;
    if links == [] {
      AnyNamesConcat([], [], y);
    } else {
      var front, last := links[..|links| - 1], links[|links| - 1];
      assert links == front + [last];
      AnyNamesConcat(front, [last], y);
      NamesOfLink([last], 0, y);
      assert Splits(front) + [] == Splits(front) && Singles(front) + [] == Singles(front);
      if last.target.One? {
        AnyNamesConcat(Singles(front), [last], y);
      } else {
        AnyNamesConcat(Splits(front), Split(last.source, last.target.sinks), y);
        if AnyNames(Split(last.source, last.target.sinks), y) {
          SplitNames(last.source, last.target.sinks, y);
        }
      }
      if AnyNames(Singles(front), y) || AnyNames(Splits(front), y) {
        ListsNames(front, y);
      }
    }
  }

  lemma ListsStep(g: Graph, naming: Naming, written: Written)
    requires Inv(g, naming, written) && NoLiterals(g.links) && NoTransforms(g.roles)
    ensures Inv(g.(links := Singles(g.links) + Splits(g.links)), naming, written)
    ensures NoLists(Singles(g.links) + Splits(g.links)) && NoLiterals(Singles(g.links) + Splits(g.links))
  {
    hide ActorsAre, MadeFits, NamesGiven, AnyNames, LinkWires, LinkLabels;
    var links := Singles(g.links) + Splits(g.links);
    ListsKeep(g.links, g.roles);
    WiresConcat(Singles(g.links), Splits(g.links), g.roles);
    LabelsConcat(Singles(g.links), Splits(g.links));
    forall y | AnyNames(links, y) ensures AnyNames(g.links, y) {
      AnyNamesConcat(Singles(g.links), Splits(g.links), y);
      ListsNames(g.links, y);
    }
    ListsShape(g.links);
    ListsRight(g.links, g.roles);
    NothingToLead(links, g.roles);
  }

  lemma {:induction false} SplitRight(source: Source, sinks: seq<Sink>, roles: Roles)
    requires LinkRight(RawLink(source, Many(sinks)), roles)
    ensures PortsRight(Split(source, sinks), roles)
  {
    if sinks != [] {
      var all, front := RawLink(source, Many(sinks)), RawLink(source, Many(sinks[..|sinks| - 1]));
      assert SinksOf(all) == sinks && SinksOf(front) == sinks[..|sinks| - 1];
      SplitRight(source, sinks[..|sinks| - 1], roles);
      var last := RawLink(source, One(sinks[|sinks| - 1]));
      assert SinksOf(last) == [sinks[|sinks| - 1]];
    }
  }

  lemma {:induction false} ListsRight(links: seq<RawLink>, roles: Roles)
    requires PortsRight(links, roles)
    ensures PortsRight(Singles(links), roles) && PortsRight(Splits(links), roles)
  {
    hide LinkRight;
    if links != [] {
      var last := links[|links| - 1];
      ListsRight(links[..|links| - 1], roles);
      if last.target.Many? {
        assert last == RawLink(last.source, Many(last.target.sinks));
        SplitRight(last.source, last.target.sinks, roles);
      }
    }
  }

  lemma NothingToLead(links: seq<RawLink>, roles: Roles)
    requires NoTransforms(roles)
    ensures TransformsLinked(links, roles)
  {
  }

  lemma {:induction false} SplitShape(source: Source, sinks: seq<Sink>)
    ensures forall i :: 0 <= i < |Split(source, sinks)| ==>
              Split(source, sinks)[i].source == source && Split(source, sinks)[i].target.One?
  {
    if sinks != [] {
      SplitShape(source, sinks[..|sinks| - 1]);
    }
  }

  lemma {:induction false} SinglesShape(links: seq<RawLink>)
    requires NoLiterals(links)
    ensures NoLists(Singles(links)) && NoLiterals(Singles(links))
  {
    if links != [] {
      SinglesShape(links[..|links| - 1]);
    }
  }

  lemma {:induction false} SplitsShape(links: seq<RawLink>)
    requires NoLiterals(links)
    ensures NoLists(Splits(links)) && NoLiterals(Splits(links))
  {
    if links != [] {
      var last := links[|links| - 1];
      SplitsShape(links[..|links| - 1]);
      if last.target.Many? {
        SplitShape(last.source, last.target.sinks);
      }
    }
  }

  lemma ListsShape(links: seq<RawLink>)
    requires NoLiterals(links)
    ensures NoLists(Singles(links) + Splits(links)) && NoLiterals(Singles(links) + Splits(links))
  {
    SinglesShape(links);
    SplitsShape(links);
  }

  ghost predicate NoTransforms(roles: Roles) {
    forall x :: x in roles ==> !roles[x].Transform?
  }

  /** Every link leads from a port to a port. */
  ghost predicate PlainLinks(links: seq<RawLink>) {
    forall i :: 0 <= i < |links| ==> links[i].source.From? && links[i].target.One? && links[i].target.sink.To?
  }

  function LinkOf(l: RawLink): Link
    requires l.source.From? && l.target.One? && l.target.sink.To?
  {
    Link(l.source.port, l.target.sink.port)
  }

  /** How many names each of the three passes has generated so far, in this block and those before. */
  datatype Counts = Counts(literals: nat, transforms: nat, voids: nat)

  class PortRewrite {
    var actors: seq<Actor>
    var links: seq<RawLink>
    /** How many names the current pass has generated. */
    var counter: nat
    ghost var roles: Roles
    ghost var made: seq<Actor>
    ghost var labelled: multiset<Actor>
    ghost var naming: Naming
    ghost const written: Written

    ghost function G(): Graph
      reads this
    {
      Graph(actors, links, roles, made, labelled)
    }

    ghost predicate Valid()
      reads this
    {
      Inv(G(), naming, written) && naming.counter == counter
    }

    /** The names in the links, labels among them, are the script's. */
    constructor (actors: seq<Actor>, links: seq<RawLink>)
      requires forall x :: AnyNames(links, x) ==> Plain(x)
      ensures Valid() && Starting() && this.actors == actors && this.links == links
      ensures naming.own == iset x | AnyNames(links, x)
      ensures written == Written(actors, Wires(links, map[]), Labels(links))
    {
      hide Inv, Wires, Labels, AnyNames, Plain;
      this.actors, this.links, counter := actors, links, 0;
      roles, made, labelled := map[], [], multiset{};
      naming, written := Naming(iset x | AnyNames(links, x), {}, "literal_const", 0),
        Written(actors, Wires(links, map[]), Labels(links));
      new;
      StartsRight(actors, links);
    }

    ghost predicate Starting()
      reads this
    {
      roles == map[] && naming == Naming(naming.own, {}, "literal_const", 0)
    }

    /** All rewrites: what is left are links from port to port. With the generated actors looked through,
        they are the connections that were written, and behind the actors of the script there are those
        declared by labels and one for every generated name. */
    method Rewrite(counts: Counts) returns (counts': Counts)
      requires Valid() && Starting()
      modifies this
      ensures PlainLinks(links) && Wires(links, roles) == written.wires
      ensures ActorsAre(actors, written.actors, written.labels + multiset(made)) && MadeFits(made, roles)
      ensures TransformsLinked(links, roles)
      ensures UsedRightly(links, made)
      ensures forall x :: x in roles ==> x !in naming.own && !Plain(x)
      ensures naming.own == old(naming.own)
    {
      hide Inv;
      FromStart(counts.literals);
      ImplicitOutPorts();
      counts' := counts.(literals := counter);
      PortLists();
      NextPass("transform", counts.transforms);
      ImplicitInPorts();
      counts' := counts'.(transforms := counter);
      NextPass("void", counts.voids);
      VoidPorts();
      counts' := counts'.(voids := counter);
      Rewritten(G(), naming, written);
    }

    method MakeUnique(name: string) returns (unique: string)
      modifies this`counter
      ensures counter == old(counter) + 1 && unique == Unique(name, counter)
    {
      counter := counter + 1;
      unique := Unique(name, counter);
    }

    /** Literals become constant actors. */
    method ImplicitOutPorts()
      requires Valid() && naming.name == "literal_const"
      modifies this
      ensures Valid() && naming == old(naming).(counter := counter) && NoLiterals(links) && |links| == |old(links)|
      ensures NoTransforms(old(roles)) ==> NoTransforms(roles)
    {
      hide Inv;
      var k := 0;
      while k < |links|
        invariant k <= |links| == |old(links)| && Valid() && naming == old(naming).(counter := counter)
        invariant forall i :: 0 <= i < k ==> !links[i].source.Literal?
        invariant NoTransforms(old(roles)) ==> NoTransforms(roles)
      {
        if links[k].source.Literal? {
          RewriteLiteral(k);
        }
        k := k + 1;
      }
    }

    method RewriteLiteral(i: nat)
      requires Valid() && naming.name == "literal_const" && i < |links| && links[i].source.Literal?
      modifies this
      ensures Valid() && naming == old(naming).(counter := counter)
      ensures |links| == |old(links)| && links == old(links)[i := links[i]] && links[i].source.From?
      ensures links[i].target == old(links)[i].target
      ensures NoTransforms(old(roles)) ==> NoTransforms(roles)
    {
      hide Inv, LinkLabels, Exchanges, Releases, NextName;
      var l := links[i];
      var name;
      if l.source.given.Some? {
        name := l.source.given.value;
        LabelIsOwn(G(), naming, written, i, ConstantActor(name, l.source.value));
        LiteralRelease(l, roles, name);
        ReleaseStep(G(), naming, written, i, l.(source := From(Out(name, "token"))),
                    ConstantActor(name, l.source.value));
        labelled := labelled + multiset{ConstantActor(name, l.source.value)};
      } else {
        name := MakeUnique("literal_const");
        assert name == NextName(naming) by { IsNext(naming, counter); }
        NextIsFree(G(), naming, written);
        NamesOfLink(links, i, name);
        LiteralExchange(l, roles, name);
        ExchangeStep(G(), naming, written, i, l.(source := From(Out(name, "token"))),
                     ConstantActor(name, l.source.value), Constant(l.source.value));
        made, roles, naming := made + [ConstantActor(name, l.source.value)], roles[name := Constant(l.source.value)],
          Next(naming);
      }
      links := links[i := l.(source := From(Out(name, "token")))];
      actors := actors + [Actor(name, "std.Constant", [NamedArg("data", l.source.value)])];
      assert G().actors == actors;
    }

    /** Links to a list become one link for every port; they move to the end. */
    method PortLists()
      requires Valid() && NoLiterals(links) && NoTransforms(roles)
      modifies this`links
      ensures Valid() && NoLiterals(links) && NoLists(links)
    {
      ListsStep(G(), naming, written);
      hide Inv;
      var singles, splits := TakeApart();
      links := singles + splits;
    }

    method TakeApart() returns (singles: seq<RawLink>, splits: seq<RawLink>)
      ensures singles == Singles(links) && splits == Splits(links)
    {
      singles, splits := [], [];
      var k := 0;
      while k < |links|
        invariant k <= |links| && singles == Singles(links[..k]) && splits == Splits(links[..k])
      {
        assert links[..k + 1][..k] == links[..k];
        if links[k].target.One? {
          singles := singles + [links[k]];
        } else {
          var split := SplitOne(links[k].source, links[k].target.sinks);
          splits := splits + split;
        }
        k := k + 1;
      }
      assert links[..k] == links;
    }

    method SplitOne(source: Source, sinks: seq<Sink>) returns (split: seq<RawLink>)
      ensures split == Split(source, sinks)
    {
      split := [];
      var k := 0;
      while k < |sinks|
        invariant k <= |sinks| && split == Split(source, sinks[..k])
      {
        assert sinks[..k + 1][..k] == sinks[..k];
        split := split + [RawLink(source, One(sinks[k]))];
        k := k + 1;
      }
      assert sinks[..k] == sinks;
    }

    /** Transforms become actors with a link behind them. */
    method ImplicitInPorts()
      requires Valid() && naming.name == "transform" && NoLiterals(links) && NoLists(links)
      modifies this
      ensures Valid() && naming == old(naming).(counter := counter) && NoLiterals(links) && NoLists(links)
      ensures forall i :: 0 <= i < |links| ==> !links[i].target.sink.Through?
    {
      hide Inv;
      var count, k := |links|, 0;
      while k < count
        invariant k <= count <= |links| && Valid() && naming == old(naming).(counter := counter)
        invariant NoLiterals(links) && NoLists(links)
        invariant forall i :: 0 <= i < k || count <= i < |links| ==> !links[i].target.sink.Through?
      {
        if links[k].target.sink.Through? {
          RewriteTransform(k);
        }
        k := k + 1;
      }
    }

    method RewriteTransform(i: nat)
      requires Valid() && naming.name == "transform" && i < |links| && links[i].target.One?
      requires links[i].target.sink.Through?
      modifies this
      ensures Valid() && naming == old(naming).(counter := counter)
      ensures |links| == |old(links)| + 1 && links[..|old(links)|] == old(links)[i := links[i]]
      ensures links[i].source == old(links)[i].source
      ensures links[i].target.One? && links[i].target.sink.To?
      ensures links[|old(links)|].source.From? && links[|old(links)|].target.One? && links[|old(links)|].target.sink.To?
    {
      hide Inv, LinkLabels, Exchanges, NextName;
      var l, sink := links[i], links[i].target.sink;
      var name;
      if sink.given.Some? {
        name := sink.given.value;
        ReleaseInsertStep(G(), naming, written, i, name, sink.value, sink.port);
        labelled := labelled + multiset{TransformActor(name, sink.value)};
      } else {
        name := MakeUnique("transform");
        assert name == NextName(naming) by { IsNext(naming, counter); }
        var a, role := TransformActor(name, sink.value), Transform(sink.value, sink.port);
        InsertStep(G(), naming, written, i, a, sink.value, sink.port);
        made, roles, naming := made + [a], roles[name := role], Next(naming);
      }
      links := links[i := l.(target := One(To(In(name, "in"))))] +
        [RawLink(From(Out(name, "out")), One(To(sink.port)))];
      actors := actors + [Actor(name, "std.Constantify", [NamedArg("constant", sink.value)])];
      assert G().actors == actors;
    }

    /** Voids become actors that send nothing, or take what they are sent. */
    method VoidPorts()
      requires Valid() && naming.name == "void" && NoLiterals(links) && NoLists(links)
      requires forall i :: 0 <= i < |links| ==> !links[i].target.sink.Through?
      modifies this
      ensures Valid() && PlainLinks(links) && naming.own == old(naming).own
      ensures Wires(links, roles) == written.wires && UsedRightly(links, made)
    {
      hide Inv;
      var k := 0;
      while k < |links|
        invariant k <= |links| && Valid() && naming == old(naming).(counter := counter)
        invariant NoLiterals(links) && NoLists(links)
        invariant forall i :: 0 <= i < |links| ==> !links[i].target.sink.Through?
        invariant forall i :: 0 <= i < k ==> links[i].source.From? && links[i].target.sink.To?
      {
        if links[k].source.NoSource? {
          RewriteVoid(k, true);
        }
        if links[k].target.sink.NoSink? {
          RewriteVoid(k, false);
        }
        k := k + 1;
      }
      Rewritten(G(), naming, written);
    }

    method RewriteVoid(i: nat, isSource: bool)
      requires Valid() && naming.name == "void" && i < |links|
      requires if isSource then links[i].source.NoSource? else links[i].target == One(NoSink)
      modifies this
      ensures Valid() && naming == old(naming).(counter := counter)
      ensures |links| == |old(links)| && links == old(links)[i := links[i]]
      ensures if isSource then links[i].source.From? && links[i].target == old(links)[i].target
              else links[i].source == old(links)[i].source && links[i].target.One? && links[i].target.sink.To?
    {
      hide Inv, LinkLabels, Exchanges, NextName;
      var l := links[i];
      var name := MakeUnique("void");
      assert name == NextName(naming) by { IsNext(naming, counter); }
      NextIsFree(G(), naming, written);
      NamesOfLink(links, i, name);
      NotBehindInv(G(), naming, written, i);
      var a, l' := Actor(name, "flow.Void", []), l.(source := From(Out(name, "void")));
      if isSource {
        VoidSourceExchange(l, roles, name);
      } else {
        a, l' := Actor(name, "flow.Terminator", []), l.(target := One(To(In(name, "void"))));
        VoidSinkExchange(l, roles, name);
      }
      ghost var role := if isSource then Role.Silent else Role.Swallows;
      ExchangeStep(G(), naming, written, i, l', a, role);
      ghost var g := Exchange(G(), i, l', a, role);
      links, actors := links[i := l'], actors + [a];
      made, roles, naming := made + [a], roles[name := role], Next(naming);
      assert G() == g;
    }

    /** The first pass may have generated names in other blocks. */
    method FromStart(count: nat)
      requires Valid() && Starting()
      modifies this`counter, this`naming
      ensures Valid() && counter == count && naming == Naming(old(naming).own, {}, "literal_const", count)
    {
      counter, naming := count, naming.(counter := count);
    }

    /** Another pass goes on from its own count, with another name. */
    method NextPass(name: string, count: nat)
      requires Valid() && name != "" && name[0] !in naming.letters && naming.name[0] != name[0] && naming.name != ""
      modifies this`counter, this`naming
      ensures Valid() && counter == count
      ensures naming == Naming(old(naming).own, old(naming).letters + {old(naming).name[0]}, name, count)
    {
      hide Wires, ActorsAre, MadeFits, TransformsLinked, NamesKnown;
      NextNaming(roles, naming, name, count);
      counter := count;
      naming := Naming(naming.own, naming.letters + {naming.name[0]}, name, count);
    }
  }

  lemma StartsRight(actors: seq<Actor>, links: seq<RawLink>)
    requires forall x :: AnyNames(links, x) ==> Plain(x)
    ensures Inv(Graph(actors, links, map[], [], multiset{}),
                Naming(iset x | AnyNames(links, x), {}, "literal_const", 0),
                Written(actors, Wires(links, map[]), Labels(links)))
  {
    hide Wires, Labels, AnyNames, Plain;
    LabelsAreNamed(links);
    assert actors[|actors|..] == [];
  }

  lemma IsNext(naming: Naming, counter: nat)
    requires counter == naming.counter + 1
    ensures NextName(naming) == Unique(naming.name, counter)
  {
  }

  lemma {:induction false} LabelsAreNamed(links: seq<RawLink>)
    ensures forall a :: a in Labels(links) ==> AnyNames(links, a.ident)
  {
    if links != [] {
      var front, last := links[..|links| - 1], links[|links| - 1];
      LabelsAreNamed(front);
      forall a | a in Labels(links) ensures AnyNames(links, a.ident) {
        if a in Labels(front) {
          var i :| 0 <= i < |front| && Names(front[i], a.ident);
          assert Names(links[i], a.ident);
        } else {
          LabelIsNamed(last, a);
          assert Names(links[|front|], a.ident);
        }
      }
    }
  }

  lemma LabelIsNamed(l: RawLink, a: Actor)
    requires a in LinkLabels(l)
    ensures Names(l, a.ident)
  {
    if a !in SourceLabels(l.source) {
      SinkLabelIsNamed(SinksOf(l), a);
    }
  }

  lemma {:induction false} SinkLabelIsNamed(sinks: seq<Sink>, a: Actor)
    requires a in SinkLabels(sinks)
    ensures exists i :: 0 <= i < |sinks| && SinkNames(sinks[i], a.ident)
  {
    var front := sinks[..|sinks| - 1];
    if a in SinkLabels(front) {
      SinkLabelIsNamed(front, a);
      var i :| 0 <= i < |front| && SinkNames(front[i], a.ident);
      assert SinkNames(sinks[i], a.ident);
    } else {
      assert SinkNames(sinks[|front|], a.ident);
    }
  }

  lemma {:induction false} PlainHasNoLabels(links: seq<RawLink>)
    requires PlainLinks(links)
    ensures Labels(links) == multiset{}
  {
    if links != [] {
      PlainHasNoLabels(links[..|links| - 1]);
      OneSink(links[|links| - 1], map[]);
    }
  }

  /** Links leave actors that were generated only from the port that their type sends on, and arrive only at the
      port where their type takes what it is sent. */
  ghost predicate UsedRightly(links: seq<RawLink>, made: seq<Actor>)
    requires PlainLinks(links)
  {
    forall i, j :: 0 <= i < |links| && 0 <= j < |made| ==>
      LeavesAs(links[i].source.port, made[j]) && ArrivesAs(links[i].target.sink.port, made[j])
  }

  predicate LeavesAs(port: OutPort, a: Actor) {
    port.Out? && port.actor == a.ident ==>
      || (a.actorType == "std.Constant" && port.port == "token")
      || (a.actorType == "std.Constantify" && port.port == "out")
      || (a.actorType == "flow.Void" && port.port == "void")
  }

  predicate ArrivesAs(port: InPort, a: Actor) {
    port.In? && port.actor == a.ident ==>
      || (a.actorType == "std.Constantify" && port.port == "in")
      || (a.actorType == "flow.Terminator" && port.port == "void")
  }

  lemma RightByType(links: seq<RawLink>, made: seq<Actor>, roles: Roles)
    requires PlainLinks(links) && PortsRight(links, roles) && MadeFits(made, roles)
    ensures UsedRightly(links, made)
  {
    forall i, j | 0 <= i < |links| && 0 <= j < |made|
      ensures LeavesAs(links[i].source.port, made[j]) && ArrivesAs(links[i].target.sink.port, made[j])
    {
      assert LinkRight(links[i], roles) && SinksOf(links[i])[0] == links[i].target.sink;
      assert made[j].ident in roles && Fits(made[j], roles[made[j].ident]);
    }
  }

  lemma Rewritten(g: Graph, naming: Naming, written: Written)
    requires Inv(g, naming, written) && PlainLinks(g.links)
    ensures Wires(g.links, g.roles) == written.wires && TransformsLinked(g.links, g.roles)
    ensures ActorsAre(g.actors, written.actors, written.labels + multiset(g.made)) && MadeFits(g.made, g.roles)
    ensures UsedRightly(g.links, g.made)
    ensures forall x :: x in g.roles ==> x !in naming.own && !Plain(x)
  {
    RightByType(g.links, g.made, g.roles);
    hide Wires, Labels, ActorsAre, MadeFits, TransformsLinked, NamesKnown;
    PlainHasNoLabels(g.links);
    forall x | x in g.roles ensures !Plain(x) {
      if !Earlier(x, naming.letters) {
        var j :| 0 < j <= naming.counter && x == Unique(naming.name, j);
        assert x[0] == '_';
      }
    }
    assert g.labelled == written.labels;
  }

  lemma NextNaming(roles: Roles, naming: Naming, name: string, count: nat)
    requires NamesGiven(roles, naming) && name != "" && name[0] !in naming.letters && naming.name[0] != name[0]
    ensures NamesGiven(roles, Naming(naming.own, naming.letters + {naming.name[0]}, name, count))
  {
    forall x | x in roles ensures Earlier(x, naming.letters + {naming.name[0]}) {
      if !Earlier(x, naming.letters) {
        var j :| 0 < j <= naming.counter && x == Unique(naming.name, j);
        assert x[0] == '_' && x[1] == naming.name[0];
      }
    }
  }

  lemma NotBehindInv(g: Graph, naming: Naming, written: Written, i: nat)
    requires Inv(g, naming, written) && i < |g.links|
    ensures g.links[i].target == One(NoSink) ==> !Behind(g.links[i].source, g.roles)
  {
    if g.links[i].target == One(NoSink) {
      NotBehind(g.links, i, g.roles);
    }
  }
}
