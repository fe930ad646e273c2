/** Links as they are written: with literals, lists, transforms and voids for ports; and the
    connections they stand for. */
module PortNotation {
  import opened Options
  import opened GraphSyntax

  /** What stands to the left of a link: a port, a literal, or nothing. A label names the actor that will
      stand for the literal, so that other links can use it. */
  datatype Source = From(port: OutPort) | Literal(value: Arg, given: Option<string>) | NoSource

  /** What stands to the right: a port, a port behind a transform, or nothing. */
  datatype Sink = To(port: InPort) | Through(value: Arg, given: Option<string>, port: InPort) | NoSink

  datatype Target = One(sink: Sink) | Many(sinks: seq<Sink>)

  datatype RawLink = RawLink(source: Source, target: Target)

  /** What an actor that was added without a label stands for. */
  datatype Role = Constant(value: Arg) | Transform(value: Arg, behind: InPort) | Silent | Swallows

  type Roles = map<string, Role>

  datatype Origin = Real(port: OutPort) | Emits(value: Arg) | Nothing

  /** A connection: where it starts, the constant that replaces what is sent, and where it ends. */
  datatype Wire = Wire(origin: Origin, via: Option<Arg>, end: Option<InPort>)

  function PortOrigin(port: OutPort, roles: Roles): Origin {
    if port.Out? && port.actor in roles then
      match roles[port.actor]
      case Constant(value) => Emits(value)
      case Silent => Nothing
      case Swallows => Real(port)
      case Transform(_, _) => Real(port)
    else Real(port)
  }

  /** Where a link starts; with a label, that is a port of the actor with this name. */
  function OriginOf(source: Source, roles: Roles): Origin {
    match source
    case Literal(value, None) => Emits(value)
    case Literal(_, Some(name)) => PortOrigin(Out(name, "token"), roles)
    case NoSource => Nothing
    case From(port) => PortOrigin(port, roles)
  }

  function WireTo(origin: Origin, port: InPort, roles: Roles): Wire {
    if port.In? && port.actor in roles then
      match roles[port.actor]
      case Transform(value, behind) => Wire(origin, Some(value), Some(behind))
      case Swallows => Wire(origin, None, None)
      case Silent => Wire(origin, None, Some(port))
      case Constant(_) => Wire(origin, None, Some(port))
    else Wire(origin, None, Some(port))
  }

  /** One connection; or, with a label, one to the actor with this name and one from there on. */
  function SinkWire(origin: Origin, sink: Sink, roles: Roles): multiset<Wire> {
    match sink
    case Through(value, None, port) => multiset{Wire(origin, Some(value), Some(port))}
    case Through(_, Some(name), port) =>
      multiset{WireTo(origin, In(name, "in"), roles)} +
        multiset{WireTo(PortOrigin(Out(name, "out"), roles), port, roles)}
    case NoSink => multiset{Wire(origin, None, None)}
    case To(port) => multiset{WireTo(origin, port, roles)}
  }

  /** The link behind a transform belongs to the connection in front of it. */
  predicate Behind(source: Source, roles: Roles) {
    source.From? && source.port.Out? && source.port.actor in roles && roles[source.port.actor].Transform?
  }

  ghost function SinkWires(origin: Origin, sinks: seq<Sink>, roles: Roles): multiset<Wire> {
    if sinks == [] then multiset{}
    else SinkWires(origin, sinks[..|sinks| - 1], roles) + SinkWire(origin, sinks[|sinks| - 1], roles)
  }

  ghost function LinkWires(l: RawLink, roles: Roles): multiset<Wire> {
    if Behind(l.source, roles) then multiset{}
    else SinkWires(OriginOf(l.source, roles), SinksOf(l), roles)
  }

  function SinksOf(l: RawLink): seq<Sink> {
    if l.target.One? then [l.target.sink] else l.target.sinks
  }

  /** All connections, given what the added actors stand for. */
  ghost function Wires(links: seq<RawLink>, roles: Roles): multiset<Wire> {
    if links == [] then multiset{} else Wires(links[..|links| - 1], roles) + LinkWires(links[|links| - 1], roles)
  }

  lemma {:induction false} WiresConcat(a: seq<RawLink>, b: seq<RawLink>, roles: Roles)
    ensures Wires(a + b, roles) == Wires(a, roles) + Wires(b, roles)
  {
    hide LinkWires;
    if b == [] {
      assert a + b == a;
    } else {
      WiresConcat(a, b[..|b| - 1], roles);
      assert (a + b)[..|a + b| - 1] == a + b[..|b| - 1] && (a + b)[|a + b| - 1] == b[|b| - 1];
    }
  }

  lemma WiresOne(l: RawLink, roles: Roles)
    ensures Wires([l], roles) == LinkWires(l, roles)
  {
    assert [l][..0] == [];
  }

  /** Changing one link changes the connections of that link. */
  lemma WiresUpdate(links: seq<RawLink>, i: nat, l: RawLink, roles: Roles)
    requires i < |links|
    ensures Wires(links[i := l], roles) == Wires(links[..i], roles) + LinkWires(l, roles) + Wires(links[i + 1..], roles)
    ensures Wires(links, roles) == Wires(links[..i], roles) + LinkWires(links[i], roles) + Wires(links[i + 1..], roles)
  {
    assert links[i := l] == links[..i] + [l] + links[i + 1..];
    assert links == links[..i] + [links[i]] + links[i + 1..];
    WiresConcat(links[..i] + [l], links[i + 1..], roles);
    WiresConcat(links[..i], [l], roles);
    WiresOne(l, roles);
    WiresConcat(links[..i] + [links[i]], links[i + 1..], roles);
    WiresConcat(links[..i], [links[i]], roles);
    WiresOne(links[i], roles);
  }

  /* ----- names ----- */

  predicate SourceNames(source: Source, name: string) {
    (source.From? && source.port.Out? && source.port.actor == name) || (source.Literal? && source.given == Some(name))
  }

  predicate SinkNames(sink: Sink, name: string) {
    (!sink.NoSink? && sink.port.In? && sink.port.actor == name) || (sink.Through? && sink.given == Some(name))
  }

  /** The actor is named in the link. */
  predicate Names(l: RawLink, name: string) {
    SourceNames(l.source, name) || exists i :: 0 <= i < |SinksOf(l)| && SinkNames(SinksOf(l)[i], name)
  }

  predicate AnyNames(links: seq<RawLink>, name: string) {
    exists i :: 0 <= i < |links| && Names(links[i], name)
  }

  lemma PortOriginFrame(port: OutPort, roles: Roles, name: string, role: Role)
    requires !(port.Out? && port.actor == name)
    ensures PortOrigin(port, roles[name := role]) == PortOrigin(port, roles)
  {
  }

  lemma WireToFrame(origin: Origin, port: InPort, roles: Roles, name: string, role: Role)
    requires !(port.In? && port.actor == name)
    ensures WireTo(origin, port, roles[name := role]) == WireTo(origin, port, roles)
  {
  }

  lemma SinkWireFrame(origin: Origin, sink: Sink, roles: Roles, name: string, role: Role)
    requires !SinkNames(sink, name)
    ensures SinkWire(origin, sink, roles[name := role]) == SinkWire(origin, sink, roles)
  {
    hide PortOrigin, WireTo;
    if sink.To? {
      WireToFrame(origin, sink.port, roles, name, role);
    } else if sink.Through? && sink.given.Some? {
      var x := sink.given.value;
      WireToFrame(origin, In(x, "in"), roles, name, role);
      PortOriginFrame(Out(x, "out"), roles, name, role);
      WireToFrame(PortOrigin(Out(x, "out"), roles), sink.port, roles, name, role);
    }
  }

  lemma {:induction false} SinkWiresFrame(origin: Origin, sinks: seq<Sink>, roles: Roles, name: string, role: Role)
    requires forall i :: 0 <= i < |sinks| ==> !SinkNames(sinks[i], name)
    ensures SinkWires(origin, sinks, roles[name := role]) == SinkWires(origin, sinks, roles)
  {
    hide SinkWire;
    if sinks != [] {
      SinkWiresFrame(origin, sinks[..|sinks| - 1], roles, name, role);
      SinkWireFrame(origin, sinks[|sinks| - 1], roles, name, role);
    }
  }

  lemma SourceFrame(source: Source, roles: Roles, name: string, role: Role)
    requires !SourceNames(source, name)
    ensures OriginOf(source, roles[name := role]) == OriginOf(source, roles)
    ensures Behind(source, roles[name := role]) == Behind(source, roles)
  {
  }

  lemma LinkWiresFrame(l: RawLink, roles: Roles, name: string, role: Role)
    requires !Names(l, name)
    ensures LinkWires(l, roles[name := role]) == LinkWires(l, roles)
  {
    hide SinkWires, OriginOf, Behind;
    SourceFrame(l.source, roles, name, role);
    SinkWiresFrame(OriginOf(l.source, roles), SinksOf(l), roles, name, role);
  }

  /** A new actor changes nothing for links that do not name it. */
  lemma {:induction false} WiresFrame(links: seq<RawLink>, roles: Roles, name: string, role: Role)
    requires !AnyNames(links, name)
    ensures Wires(links, roles[name := role]) == Wires(links, roles)
  {
    if links != [] {
      var n := |links| - 1;
      assert !AnyNames(links[..n], name) by {
        assert forall i :: 0 <= i < n ==> links[..n][i] == links[i];
      }
      WiresFrame(links[..n], roles, name, role);
      LinkWiresFrame(links[n], roles, name, role);
    }
  }

  /* ----- ports of added actors ----- */

  /** The port that a link may leave an added actor from. */
  predicate LeavesRight(port: OutPort, roles: Roles) {
    port.Out? && port.actor in roles ==>
      match roles[port.actor]
      case Constant(_) => port.port == "token"
      case Transform(_, _) => port.port == "out"
      case Silent => port.port == "void"
      case Swallows => false
  }

  /** The port at which a link may arrive at one. */
  predicate ArrivesRight(port: InPort, roles: Roles) {
    port.In? && port.actor in roles ==>
      match roles[port.actor]
      case Transform(_, _) => port.port == "in"
      case Swallows => port.port == "void"
      case _ => false
  }

  predicate LinkRight(l: RawLink, roles: Roles) {
    && (l.source.From? ==> LeavesRight(l.source.port, roles))
    && forall i :: 0 <= i < |SinksOf(l)| && !SinksOf(l)[i].NoSink? ==> ArrivesRight(SinksOf(l)[i].port, roles)
  }

  ghost predicate PortsRight(links: seq<RawLink>, roles: Roles) {
    forall i :: 0 <= i < |links| ==> LinkRight(links[i], roles)
  }

  lemma RightFrame(l: RawLink, roles: Roles, name: string, role: Role)
    requires LinkRight(l, roles) && !Names(l, name)
    ensures LinkRight(l, roles[name := role])
  {
    forall i | 0 <= i < |SinksOf(l)| && !SinksOf(l)[i].NoSink?
      ensures ArrivesRight(SinksOf(l)[i].port, roles[name := role])
    {
      assert !SinkNames(SinksOf(l)[i], name);
    }
  }

  /** A new actor, and a link that uses it at its port. */
  lemma RightUpdate(links: seq<RawLink>, i: nat, l: RawLink, roles: Roles, name: string, role: Role)
    requires i < |links| && PortsRight(links, roles) && !AnyNames(links, name) && LinkRight(l, roles[name := role])
    ensures PortsRight(links[i := l], roles[name := role])
  {
    forall k | 0 <= k < |links| && k != i ensures LinkRight(links[k], roles[name := role]) {
      RightFrame(links[k], roles, name, role);
    }
  }

  /* ----- labels ----- */

  function ConstantActor(name: string, value: Arg): Actor {
    Actor(name, "std.Constant", [NamedArg("data", value)])
  }

  function TransformActor(name: string, value: Arg): Actor {
    Actor(name, "std.Constantify", [NamedArg("constant", value)])
  }

  function SourceLabels(source: Source): multiset<Actor> {
    if source.Literal? && source.given.Some?
    then multiset{ConstantActor(source.given.value, source.value)} else multiset{}
  }

  function SinkLabel(sink: Sink): multiset<Actor> {
    if sink.Through? && sink.given.Some? then multiset{TransformActor(sink.given.value, sink.value)} else multiset{}
  }

  ghost function SinkLabels(sinks: seq<Sink>): multiset<Actor> {
    if sinks == [] then multiset{} else SinkLabels(sinks[..|sinks| - 1]) + SinkLabel(sinks[|sinks| - 1])
  }

  ghost function LinkLabels(l: RawLink): multiset<Actor> {
    SourceLabels(l.source) + SinkLabels(SinksOf(l))
  }

  /** The actors that are declared by labels. */
  ghost function Labels(links: seq<RawLink>): multiset<Actor> {
    if links == [] then multiset{} else Labels(links[..|links| - 1]) + LinkLabels(links[|links| - 1])
  }

  lemma {:induction false} LabelsConcat(a: seq<RawLink>, b: seq<RawLink>)
    ensures Labels(a + b) == Labels(a) + Labels(b)
  {
    hide LinkLabels;
    if b == [] {
      assert a + b == a;
    } else {
      LabelsConcat(a, b[..|b| - 1]);
      assert (a + b)[..|a + b| - 1] == a + b[..|b| - 1] && (a + b)[|a + b| - 1] == b[|b| - 1];
    }
  }

  lemma LabelsOne(l: RawLink)
    ensures Labels([l]) == LinkLabels(l)
  {
    assert [l][..0] == [];
  }

  lemma LabelsUpdate(links: seq<RawLink>, i: nat, l: RawLink)
    requires i < |links|
    ensures Labels(links[i := l]) == Labels(links[..i]) + LinkLabels(l) + Labels(links[i + 1..])
    ensures Labels(links) == Labels(links[..i]) + LinkLabels(links[i]) + Labels(links[i + 1..])
  {
    assert links[i := l] == links[..i] + [l] + links[i + 1..];
    assert links == links[..i] + [links[i]] + links[i + 1..];
    LabelsConcat(links[..i] + [l], links[i + 1..]);
    LabelsConcat(links[..i], [l]);
    LabelsOne(l);
    LabelsConcat(links[..i] + [links[i]], links[i + 1..]);
    LabelsConcat(links[..i], [links[i]]);
    LabelsOne(links[i]);
  }

  /* ----- generated names ----- */

  function Digit(n: nat): char
    requires n < 10
  {
    "0123456789"[n]
  }

  function Decimal(n: nat): string {
    if n < 10 then [Digit(n)] else Decimal(n / 10) + [Digit(n % 10)]
  }

  /** What stands in for a missing label: it starts like no identifier. */
  function Unique(name: string, counter: nat): string {
    "_" + name + "_" + Decimal(counter)
  }

  lemma DigitInjective(m: nat, n: nat)
    requires m < 10 && n < 10 && Digit(m) == Digit(n)
    ensures m == n
  {
    var digits := "0123456789";
    assert forall i, j :: 0 <= i < j < 10 ==> digits[i] != digits[j];
  }

  lemma {:induction false} DecimalInjective(m: nat, n: nat)
    requires Decimal(m) == Decimal(n)
    ensures m == n
  {
    var a, b := Decimal(m), Decimal(n);
    assert a[|a| - 1] == Digit(m % 10) && b[|b| - 1] == Digit(n % 10);
    DigitInjective(m % 10, n % 10);
    DecimalNotEmpty(m / 10);
    DecimalNotEmpty(n / 10);
    if m >= 10 && n >= 10 {
      assert a[..|a| - 1] == Decimal(m / 10) && b[..|b| - 1] == Decimal(n / 10);
      DecimalInjective(m / 10, n / 10);
    }
  }

  lemma DecimalNotEmpty(n: nat)
    ensures Decimal(n) != []
  {
  }

  lemma UniqueInjective(name: string, m: nat, n: nat)
    requires Unique(name, m) == Unique(name, n)
    ensures m == n
  {
    var prefix := "_" + name + "_";
    assert Unique(name, m)[|prefix|..] == Decimal(m) && Unique(name, n)[|prefix|..] == Decimal(n);
    DecimalInjective(m, n);
  }
}
