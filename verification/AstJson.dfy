/** Component trees as JSON text and back. */
module AstJson {
  import opened Options

  /** What the attributes of tree nodes hold; a node has a class and its attributes, among them its
      children, but not its parent, which is cleared before a node is written. */
  datatype Data =
    | Null
    | Bool(b: bool)
    | Number(n: int)
    | Text(s: string)
    | Sequence(items: seq<Data>)
    | Dict(entries: seq<Entry>)
    | Node(className: string, attributes: seq<Entry>)

  datatype Entry = Entry(key: string, data: Data)

  datatype Json =
    | JNull
    | JBool(b: bool)
    | JNumber(n: int)
    | JText(s: string)
    | JArray(items: seq<Json>)
    | JObject(members: seq<Member>)

  datatype Member = Member(key: string, json: Json)

  /** The classes the decoder can make again. */
  const CLASSES := {
    "Node", "Constant", "Id", "Value", "Assignment", "PortProperty", "IdValuePair", "NamedArg", "Link", "Void",
    "TransformedPort", "Port", "InPort", "OutPort", "ImplicitPort", "InternalInPort", "InternalOutPort", "Block",
    "Component", "RuleApply", "Group", "SetOp", "RulePredicate", "UnarySetOp" }

  /* ----- writing ----- */

  function Encode(d: Data): Json {
    match d
    case Null => JNull
    case Bool(b) => JBool(b)
    case Number(n) => JNumber(n)
    case Text(s) => JText(s)
    case Sequence(items) => JArray(EncodeAll(items))
    case Dict(entries) => JObject(EncodeEntries(entries))
    case Node(className, attributes) =>
      JObject([Member("class", JText(className)), Member("data", JObject(EncodeEntries(attributes)))])
  }

  function EncodeAll(items: seq<Data>): seq<Json> {
    if items == [] then [] else [Encode(items[0])] + EncodeAll(items[1..])
  }

  function EncodeEntries(entries: seq<Entry>): seq<Member> {
    if entries == [] then [] else [Member(entries[0].key, Encode(entries[0].data))] + EncodeEntries(entries[1..])
  }

  /* ----- reading: objects are turned into nodes from the inside out ----- */

  predicate HasKey(entries: seq<Entry>, key: string) {
    exists i :: 0 <= i < |entries| && entries[i].key == key
  }

  function Get(entries: seq<Entry>, key: string): Option<Data> {
    if entries == [] then None else if entries[0].key == key then Some(entries[0].data) else Get(entries[1..], key)
  }

  /** An object with a class is a node of that class, whose attributes are its data; there is no
      result for a class that is not known, or without data. */
  function Hook(entries: seq<Entry>): Option<Data> {
    if !HasKey(entries, "class") then Some(Dict(entries))
    else match (Get(entries, "class"), Get(entries, "data"))
         case (Some(Text(className)), Some(Dict(attributes))) =>
           if className in CLASSES then Some(Node(className, attributes)) else None
         case _ => None
  }

  function Decode(j: Json): Option<Data> {
    match j
    case JNull => Some(Null)
    case JBool(b) => Some(Bool(b))
    case JNumber(n) => Some(Number(n))
    case JText(s) => Some(Text(s))
    case JArray(items) =>
      var all := DecodeAll(items);
      if all.None? then None else Some(Sequence(all.value))
    case JObject(members) =>
      var entries := DecodeMembers(members);
      if entries.None? then None else Hook(entries.value)
  }

  function DecodeAll(items: seq<Json>): Option<seq<Data>> {
    if items == [] then Some([])
    else
      var first, rest := Decode(items[0]), DecodeAll(items[1..]);
      if first.None? || rest.None? then None else Some([first.value] + rest.value)
  }

  function DecodeMembers(members: seq<Member>): Option<seq<Entry>> {
    if members == [] then Some([])
    else
      var first, rest := Decode(members[0].json), DecodeMembers(members[1..]);
      if first.None? || rest.None? then None else Some([Entry(members[0].key, first.value)] + rest.value)
  }

  /* ----- the round trip ----- */

  /** No dictionary, and no node, has an entry called class, and the classes of all nodes are known. */
  predicate Readable(d: Data) {
    match d
    case Sequence(items) => forall i :: 0 <= i < |items| ==> Readable(items[i])
    case Dict(entries) => !HasKey(entries, "class") && forall i :: 0 <= i < |entries| ==> Readable(entries[i].data)
    case Node(className, attributes) =>
      && className in CLASSES && !HasKey(attributes, "class")
      && forall i :: 0 <= i < |attributes| ==> Readable(attributes[i].data)
    case _ => true
  }

  predicate AllReadable(items: seq<Data>) {
    forall i :: 0 <= i < |items| ==> Readable(items[i])
  }

  predicate EntriesReadable(entries: seq<Entry>) {
    forall i :: 0 <= i < |entries| ==> Readable(entries[i].data)
  }

  /** Reading what was written gives the same tree for exactly the readable ones. */
  lemma {:induction false} RoundTrip(d: Data)
    ensures Decode(Encode(d)) == Some(d) <==> Readable(d)
  {
    match d
    case Sequence(items) => AllRoundTrip(items);
    case Dict(entries) =>
      EntriesRoundTrip(entries);
      DictComesBack(entries);
    case Node(className, attributes) =>
      EntriesRoundTrip(attributes);
      NodeComesBack(className, attributes);
    case _ =>
  }

  lemma {:induction false} AllRoundTrip(items: seq<Data>)
    ensures DecodeAll(EncodeAll(items)) == Some(items) <==> AllReadable(items)
  {
    if items != [] {
      RoundTrip(items[0]);
      AllRoundTrip(items[1..]);
      SameParts(Decode(Encode(items[0])), DecodeAll(EncodeAll(items[1..])), items);
      assert EncodeAll(items)[1..] == EncodeAll(items[1..]);
      assert AllReadable(items) <==> Readable(items[0]) && AllReadable(items[1..]);
    }
  }

  lemma {:induction false} EntriesRoundTrip(entries: seq<Entry>)
    ensures DecodeMembers(EncodeEntries(entries)) == Some(entries) <==> EntriesReadable(entries)
  {
    if entries != [] {
      RoundTrip(entries[0].data);
      EntriesRoundTrip(entries[1..]);
      var first := Decode(Encode(entries[0].data));
      SameParts(if first.None? then None else Some(Entry(entries[0].key, first.value)),
                DecodeMembers(EncodeEntries(entries[1..])), entries);
      assert EncodeEntries(entries)[1..] == EncodeEntries(entries[1..]);
      assert entries[0] == Entry(entries[0].key, entries[0].data);
      assert EntriesReadable(entries) <==> Readable(entries[0].data) && EntriesReadable(entries[1..]);
    }
  }

  lemma SameParts<T>(first: Option<T>, rest: Option<seq<T>>, whole: seq<T>)
    requires whole != []
    ensures first.Some? && rest.Some? && [first.value] + rest.value == whole <==>
              first == Some(whole[0]) && rest == Some(whole[1..])
  {
    if first.Some? && rest.Some? {
      var parts := [first.value] + rest.value;
      assert parts[1..] == rest.value && parts[0] == first.value;
    }
  }

  lemma DictComesBack(entries: seq<Entry>)
    ensures Decode(Encode(Dict(entries))) == Some(Dict(entries)) <==>
            DecodeMembers(EncodeEntries(entries)) == Some(entries) && !HasKey(entries, "class")
  {
  }

  lemma NodeComesBack(className: string, attributes: seq<Entry>)
    ensures Decode(Encode(Node(className, attributes))) == Some(Node(className, attributes)) <==>
            className in CLASSES && DecodeMembers(EncodeEntries(attributes)) == Some(attributes) &&
              !HasKey(attributes, "class")
  {
    var c, d := Member("class", JText(className)), Member("data", JObject(EncodeEntries(attributes)));
    var data := Decode(d.json);
    OneMember(d);
    assert [c, d][1..] == [d] && Decode(c.json) == Some(Text(className));
    if data.Some? {
      var entries := [Entry("class", Text(className)), Entry("data", data.value)];
      assert [Entry("class", Text(className))] + [Entry("data", data.value)] == entries;
      NodeEntries(className, data.value);
    }
  }

  lemma OneMember(m: Member)
    ensures DecodeMembers([m]) == if Decode(m.json).None? then None else Some([Entry(m.key, Decode(m.json).value)])
  {
    var rest := DecodeMembers([m][1..]);
    assert rest == Some([]);
    assert Decode(m.json).Some? ==> [Entry(m.key, Decode(m.json).value)] + [] == [Entry(m.key, Decode(m.json).value)];
  }

  lemma NodeEntries(className: string, data: Data)
    ensures var entries := [Entry("class", Text(className)), Entry("data", data)];
            Hook(entries) == if data.Dict? && className in CLASSES then Some(Node(className, data.entries)) else None
  {
    var entries := [Entry("class", Text(className)), Entry("data", data)];
    assert entries[0].key == "class" && entries[1..] == [Entry("data", data)];
    assert Get(entries, "class") == Some(Text(className));
    assert "class" != "data";
    assert Get(entries[1..], "data") == Some(data);
  }
}
