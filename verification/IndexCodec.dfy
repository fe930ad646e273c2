/** The strings under which node attributes are indexed in the registry. */
module IndexCodec {
  import opened Sequences

  datatype Item = Absent | Text(s: string)

  const RESOURCES := {"cpuAvail", "memAvail"}
  const RESOURCE_PREFIX := "/node/resource"
  const ATTRIBUTE_PREFIX := "/node/attribute"

  datatype Decoded = Items(items: seq<Item>) | NotANodeAttribute

  function TextOf(item: Item): string {
    if item.Absent? then "" else item.s
  }

  /** Empty texts are not told from absent ones. */
  function Normal(item: Item): Item {
    if TextOf(item) == "" then Absent else item
  }

  function NormalAll(items: seq<Item>): seq<Item> {
    seq(|items|, i requires 0 <= i < |items| => Normal(items[i]))
  }

  function Prefix(items: seq<Item>): string {
    if exists i :: 0 <= i < |items| && items[i].Text? && items[i].s in RESOURCES then RESOURCE_PREFIX
         else ATTRIBUTE_PREFIX
  }

  /* ----- replacing in strings ----- */

  /** All occurrences of a character. */
  function ReplaceChar(s: string, c: char, with: string): string {
    if s == "" then "" else (if s[0] == c then with else [s[0]]) + ReplaceChar(s[1..], c, with)
  }

  /** All occurrences of a pair of characters, from the left, without overlap. */
  function ReplacePair(s: string, c: char, d: char, with: char): string {
    if |s| < 2 then s
    else if s[0] == c && s[1] == d then [with] + ReplacePair(s[2..], c, d, with)
    else [s[0]] + ReplacePair(s[1..], c, d, with)
  }

  /** Backslashes first, then slashes. */
  function Escape(s: string): string {
    ReplaceChar(ReplaceChar(s, '\\', "\\\\"), '/', "\\/")
  }

  /** Slashes first, then backslashes. */
  function Unescape(s: string): string {
    ReplacePair(ReplacePair(s, '\\', '/', '/'), '\\', '\\', '\\')
  }

  function EscapeChar(c: char): string {
    if c == '\\' then "\\\\" else if c == '/' then "\\/" else [c]
  }

  function EscapeEach(s: string): string {
    if s == "" then "" else EscapeChar(s[0]) + EscapeEach(s[1..])
  }

  lemma ReplaceFirst(a: string, b: string, c: char, with: string)
    requires a != ""
    ensures ReplaceChar(a + b, c, with) == (if a[0] == c then with else [a[0]]) + ReplaceChar(a[1..] + b, c, with)
  {
    assert (a + b)[1..] == a[1..] + b;
  }

  lemma {:induction false} ReplaceConcat(a: string, b: string, c: char, with: string)
    ensures ReplaceChar(a + b, c, with) == ReplaceChar(a, c, with) + ReplaceChar(b, c, with)
  {
    if a == "" {
      assert a + b == b;
    } else {
      ReplaceConcat(a[1..], b, c, with);
      ReplaceFirst(a, b, c, with);
      Assoc(if a[0] == c then with else [a[0]], ReplaceChar(a[1..], c, with), ReplaceChar(b, c, with));
    }
  }

  lemma {:induction false} EscapeIsEach(s: string)
    ensures Escape(s) == EscapeEach(s)
  {
    if s != "" {
      EscapeIsEach(s[1..]);
      var first := if s[0] == '\\' then "\\\\" else [s[0]];
      ReplaceConcat(first, ReplaceChar(s[1..], '\\', "\\\\"), '/', "\\/");
      ReplaceShort(s[0]);
    }
  }

  lemma ReplaceShort(c: char)
    ensures ReplaceChar(if c == '\\' then "\\\\" else [c], '/', "\\/") == EscapeChar(c)
  {
    assert "\\\\"[1..] == "\\" && "\\"[1..] == "" && [c][1..] == "";
  }

  /** The backslashes doubled, the slashes as they are. */
  function Doubled(s: string): string {
    ReplaceChar(s, '\\', "\\\\")
  }

  lemma {:induction false} SlashesBack(s: string)
    ensures ReplacePair(EscapeEach(s), '\\', '/', '/') == Doubled(s)
    ensures s == "" || EscapeEach(s)[0] != '/'
  {
    if s != "" {
      SlashesBack(s[1..]);
      var rest := EscapeEach(s[1..]);
      var e := EscapeEach(s);
      if s[0] == '\\' {
        assert e[1..] == "\\" + rest && e[2..] == rest && ("\\" + rest)[1..] == rest;
      } else if s[0] == '/' {
        assert e[2..] == rest;
      } else {
        assert e[1..] == rest;
      }
    }
  }

  lemma {:induction false} BackslashesBack(s: string)
    ensures ReplacePair(Doubled(s), '\\', '\\', '\\') == s
  {
    if s != "" {
      BackslashesBack(s[1..]);
      var d, rest := Doubled(s), Doubled(s[1..]);
      if s[0] == '\\' {
        assert d[2..] == rest;
      } else {
        assert d[1..] == rest;
      }
    }
  }

  /** Unescaping undoes escaping, for every string. */
  lemma UnescapeEscape(s: string)
    ensures Unescape(Escape(s)) == s
  {
    EscapeIsEach(s);
    SlashesBack(s);
    BackslashesBack(s);
  }

  /* ----- splitting ----- */

  /** A slash that ends the text separates, unless exactly before it there is a backslash that
      has a character in front, and that character is not a backslash. */
  predicate Separates(text: string) {
    text != "" && text[|text| - 1] == '/' &&
    !(|text| >= 3 && text[|text| - 2] == '\\' && text[|text| - 3] != '\\')
  }

  function Pieces(text: string): (pieces: seq<string>)
    ensures pieces != []
  {
    if text == "" then [""]
    else
      var n := |text| - 1;
      var pieces := Pieces(text[..n]);
      if Separates(text) then pieces + [""] else pieces[|pieces| - 1 := pieces[|pieces| - 1] + [text[n]]]
  }

  function Extend(pieces: seq<string>, more: string): seq<string>
    requires pieces != []
  {
    pieces[|pieces| - 1 := pieces[|pieces| - 1] + more]
  }

  /** A slash in an item that is taken for a separator when its escaped form is split: one after a
      backslash, or one that starts the first item. */
  predicate Misread(s: string, k: nat, first: bool) {
    k < |s| && s[k] == '/' && if k == 0 then first else s[k - 1] == '\\'
  }

  function Misreads(s: string, n: nat, first: bool): nat
    requires n <= |s|
  {
    if n == 0 then 0 else Misreads(s, n - 1, first) + if Misread(s, n - 1, first) then 1 else 0
  }

  lemma {:induction false} EscapeEachMore(s: string, n: nat)
    requires n < |s|
    ensures EscapeEach(s[..n + 1]) == EscapeEach(s[..n]) + EscapeChar(s[n])
    decreases n
  {
    if n == 0 {
      assert s[..1][1..] == "" && s[..0] == "";
    } else {
      EscapeEachMore(s[1..], n - 1);
      assert s[..n + 1][1..] == s[1..][..n] && s[..n][1..] == s[1..][..n - 1];
      assert s[1..][n - 1] == s[n];
    }
  }

  /** The last character of an escaped text. */
  lemma EscapeLast(s: string)
    requires s != ""
    ensures EscapeEach(s) != "" && EscapeEach(s)[|EscapeEach(s)| - 1] == s[|s| - 1]
    ensures s[|s| - 1] == '\\' ==> |EscapeEach(s)| >= 2 && EscapeEach(s)[|EscapeEach(s)| - 2] == '\\'
  {
    EscapeEachMore(s, |s| - 1);
    assert s[..|s|] == s;
  }

  /** Text in front of an item: nothing, or something that ends with a separator. */
  predicate Front(text: string) {
    text == "" || text[|text| - 1] == '/'
  }

  lemma PiecesOne(text: string, c: char)
    ensures Pieces(text + [c]) == if Separates(text + [c]) then Pieces(text) + [""] else Extend(Pieces(text), [c])
  {
    assert (text + [c])[..|text|] == text;
  }

  lemma ExtendNothing(pieces: seq<string>)
    requires pieces != []
    ensures Extend(pieces, "") == pieces
  {
    assert pieces[|pieces| - 1] + "" == pieces[|pieces| - 1];
  }

  lemma ExtendTwice(pieces: seq<string>, a: string, b: string)
    requires pieces != []
    ensures Extend(Extend(pieces, a), b) == Extend(pieces, a + b)
  {
    assert pieces[|pieces| - 1] + a + b == pieces[|pieces| - 1] + (a + b);
  }

  /** Splitting an escaped item cuts it exactly at its misread slashes. */
  lemma {:induction false} PiecesOfItem(text: string, s: string, n: nat)
    requires Front(text) && n <= |s|
    ensures |Pieces(text + EscapeEach(s[..n]))| == |Pieces(text)| + Misreads(s, n, text == "")
    ensures Misreads(s, n, text == "") == 0 ==>
              Pieces(text + EscapeEach(s[..n])) == Extend(Pieces(text), EscapeEach(s[..n]))
    decreases n
  {
    hide Pieces, EscapeEach, EscapeChar;
    if n == 0 {
      NothingEscaped(text, s);
      ExtendNothing(Pieces(text));
    } else {
      PiecesOfItem(text, s, n - 1);
      EscapeEachMore(s, n - 1);
      var c, before, escaped := s[n - 1], text + EscapeEach(s[..n - 1]), EscapeEach(s[..n - 1]);
      assert text + EscapeEach(s[..n]) == before + EscapeChar(c);
      EscapedChar(before, c);
      ExtendTwice(Pieces(text), escaped, EscapeChar(c));
      if c == '/' {
        BeforeChar(text, s, n);
      }
    }
  }

  lemma NothingEscaped(text: string, s: string)
    ensures EscapeEach(s[..0]) == "" && text + EscapeEach(s[..0]) == text
  {
  }

  /** What is in front of an escaped slash tells whether the slash is misread. */
  lemma BeforeChar(text: string, s: string, n: nat)
    requires Front(text) && 0 < n <= |s| && s[n - 1] == '/'
    ensures var before := text + EscapeEach(s[..n - 1]);
            before == "" || before[|before| - 1] == '\\' <==> Misread(s, n - 1, text == "")
  {
    if n > 1 {
      EscapeLast(s[..n - 1]);
    } else {
      NothingEscaped(text, s);
    }
  }

  lemma AfterBackslash(before: string, c: char)
    ensures !Separates(before + "\\")
    ensures Separates(before + "\\" + [c]) <==> c == '/' && (before == "" || before[|before| - 1] == '\\')
  {
  }

  lemma NotASlash(before: string, c: char)
    requires c != '/'
    ensures !Separates(before + [c])
  {
  }

  lemma EscapedChar(before: string, c: char)
    ensures Pieces(before + EscapeChar(c)) ==
            if c == '/' && (before == "" || before[|before| - 1] == '\\') then Extend(Pieces(before), "\\") + [""]
            else Extend(Pieces(before), EscapeChar(c))
  {
    hide Pieces, Extend, Separates;
    if c == '\\' || c == '/' {
      PiecesOne(before, '\\');
      PiecesOne(before + "\\", c);
      assert EscapeChar(c) == "\\" + [c];
      assert before + EscapeChar(c) == before + "\\" + [c];
      ExtendTwice(Pieces(before), "\\", [c]);
      AfterBackslash(before, c);
    } else {
      PiecesOne(before, c);
      NotASlash(before, c);
    }
  }

  /** A separator is always recognised. */
  lemma PiecesOfSeparator(text: string, s: string)
    requires Front(text)
    ensures Pieces(text + EscapeEach(s) + "/") == Pieces(text + EscapeEach(s)) + [""]
  {
    hide Pieces, Separates, Front;
    PiecesOne(text + EscapeEach(s), '/');
    SlashSeparates(text, s);
  }

  lemma SlashSeparates(text: string, s: string)
    requires Front(text)
    ensures Separates(text + EscapeEach(s) + "/")
  {
    if s != "" {
      EscapeLast(s);
    }
  }

  /* ----- whole lists ----- */

  /** The items, each escaped and with a slash in front. */
  function Body(items: seq<Item>): string {
    if items == [] then "" else Body(items[..|items| - 1]) + "/" + Escape(TextOf(items[|items| - 1]))
  }

  function BadSlashes(items: seq<Item>): nat {
    if items == [] then 0
    else
      var n := |items| - 1;
      BadSlashes(items[..n]) + Misreads(TextOf(items[n]), |TextOf(items[n])|, n == 0)
  }

  function Escaped(items: seq<Item>): seq<string> {
    seq(|items|, i requires 0 <= i < |items| => EscapeEach(TextOf(items[i])))
  }

  /** Without its leading slash, the body is split into one piece for every item and one more for
      every misread slash. */
  lemma {:induction false} PiecesOfBody(items: seq<Item>)
    requires items != []
    ensures Body(items) != "" && Body(items)[0] == '/'
    ensures |Pieces(Body(items)[1..])| == |items| + BadSlashes(items)
    ensures BadSlashes(items) == 0 ==> Pieces(Body(items)[1..]) == Escaped(items)
  {
    hide Pieces, EscapeEach, Escape, Separates, Extend;
    var n := |items| - 1;
    var s := TextOf(items[n]);
    EscapeIsEach(s);
    assert s[..|s|] == s;
    if n == 0 {
      assert items[..0] == [] && Body(items)[1..] == EscapeEach(s) == "" + EscapeEach(s);
      PiecesOfItem("", s, |s|);
      NothingSplit(EscapeEach(s));
      assert Escaped(items) == [EscapeEach(s)];
    } else {
      PiecesOfBody(items[..n]);
      PiecesOfMore(items, n);
    }
  }

  lemma PiecesOfMore(items: seq<Item>, n: nat)
    requires n > 0 && |items| == n + 1 && Body(items[..n]) != "" && Body(items[..n])[0] == '/'
    requires |Pieces(Body(items[..n])[1..])| == n + BadSlashes(items[..n])
    requires BadSlashes(items[..n]) == 0 ==> Pieces(Body(items[..n])[1..]) == Escaped(items[..n])
    ensures |Pieces(Body(items)[1..])| == |items| + BadSlashes(items)
    ensures BadSlashes(items) == 0 ==> Pieces(Body(items)[1..]) == Escaped(items)
  {
    hide Pieces, EscapeEach, Escape, Separates, Extend;
    var s, t := TextOf(items[n]), TextOf(items[n - 1]);
    EscapeIsEach(s);
    var text := Body(items[..n])[1..];
    var front := LastItem(items[..n]);
    PiecesOfSeparator(front, t);
    assert s[..|s|] == s;
    PiecesOfItem(text + "/", s, |s|);
    ExtendLast(Pieces(text), EscapeEach(s));
    assert Body(items)[1..] == text + "/" + EscapeEach(s);
    assert Escaped(items) == Escaped(items[..n]) + [EscapeEach(s)];
  }

  lemma ExtendLast(pieces: seq<string>, more: string)
    ensures Extend(pieces + [""], more) == pieces + [more]
  {
    assert "" + more == more;
  }

  lemma NothingSplit(more: string)
    ensures Pieces("") == [""] && Extend(Pieces(""), more) == [more]
  {
    assert "" + more == more;
  }

  lemma LastItem(items: seq<Item>) returns (front: string)
    requires items != [] && Body(items) != ""
    ensures Front(front) && Body(items)[1..] == front + EscapeEach(TextOf(items[|items| - 1]))
  {
    hide EscapeEach, Escape;
    EscapeIsEach(TextOf(items[|items| - 1]));
    var whole := Body(items[..|items| - 1]) + "/";
    front := whole[1..];
  }

  /* ----- encoding and decoding ----- */

  function Encode(items: seq<Item>): string {
    Prefix(items) + Body(items)
  }

  function ItemOf(piece: string): Item {
    if Unescape(piece) == "" then Absent else Text(Unescape(piece))
  }

  function ItemsOf(pieces: seq<string>): seq<Item> {
    seq(|pieces|, i requires 0 <= i < |pieces| => ItemOf(pieces[i]))
  }

  /** What follows a prefix and one more character. */
  function After(text: string, prefix: string): string {
    if |text| <= |prefix| then "" else text[|prefix| + 1..]
  }

  function Decode(text: string): Decoded {
    if RESOURCE_PREFIX <= text then Items(ItemsOf(Pieces(After(text, RESOURCE_PREFIX))))
    else if ATTRIBUTE_PREFIX <= text then Items(ItemsOf(Pieces(After(text, ATTRIBUTE_PREFIX))))
    else NotANodeAttribute
  }

  function Levels(items: seq<Item>): seq<string> {
    seq(|items|, i requires 0 <= i < |items| => Escape(TextOf(items[i])))
  }

  lemma BodyMore(items: seq<Item>, k: nat)
    requires k < |items|
    ensures Body(items[..k + 1]) == Body(items[..k]) + "/" + Escape(TextOf(items[k]))
    ensures Levels(items[..k + 1]) == Levels(items[..k]) + [Escape(TextOf(items[k]))]
  {
    assert items[..k + 1][..k] == items[..k];
  }

  lemma NoBody(items: seq<Item>)
    ensures Body(items[..0]) == "" && Escape("") == "" && Levels(items[..0]) == []
  {
  }

  /** Levels as one string, with a slash in front of each. */
  function Slashed(levels: seq<string>): string {
    if levels == [] then "" else Slashed(levels[..|levels| - 1]) + "/" + levels[|levels| - 1]
  }

  lemma SlashedMore(levels: seq<string>, level: string)
    ensures Slashed(levels + [level]) == Slashed(levels) + "/" + level
  {
    assert (levels + [level])[..|levels|] == levels;
  }

  lemma SlashedNone()
    ensures Slashed([]) == ""
  {
  }

  lemma SlashedTwo(a: string, b: string)
    ensures Slashed([a, b]) == "/" + a + "/" + b
  {
    SlashedMore([], a);
    SlashedMore([a], b);
    assert [] + [a] == [a] && [a] + [b] == [a, b];
    assert "" + "/" + a == "/" + a;
  }

  /** What is indexed is the value of a resource. */
  predicate IsResource(attr: seq<Item>) {
    exists i :: 0 <= i < |attr| && (attr[i] == Text("cpuAvail") || attr[i] == Text("memAvail"))
  }

  lemma PrefixIs(attr: seq<Item>)
    ensures Prefix(attr) == if IsResource(attr) then "/node/resource" else "/node/attribute"
  {
    if i :| 0 <= i < |attr| && attr[i].Text? && attr[i].s in RESOURCES {
      assert attr[i] == Text(attr[i].s);
    }
  }

  function IndexLevels(attr: seq<Item>): seq<string> {
    ["node", if IsResource(attr) then "resource" else "attribute"] + Levels(attr)
  }

  lemma {:induction false} SlashedLevels(start: seq<string>, items: seq<Item>)
    ensures Slashed(start + Levels(items)) == Slashed(start) + Body(items)
  {
    hide Escape, Slashed;
    if items == [] {
      assert start + Levels(items) == start && Slashed(start) + "" == Slashed(start);
    } else {
      var n := |items| - 1;
      SlashedLevels(start, items[..n]);
      BodyMore(items, n);
      assert items[..n + 1] == items;
      var level := Escape(TextOf(items[n]));
      SlashedMore(start + Levels(items[..n]), level);
      assert start + Levels(items) == start + Levels(items[..n]) + [level];
      Assoc(Slashed(start), Body(items[..n]), "/" + level);
      Assoc(Slashed(start) + Body(items[..n]), "/", level);
      Assoc(Body(items[..n]), "/", level);
    }
  }

  /** The index is that of its levels, and these are the escaped items. */
  lemma IndexIsSlashed(attr: seq<Item>)
    ensures Encode(attr) == Slashed(IndexLevels(attr)) && |Levels(attr)| == |attr|
    ensures forall i :: 0 <= i < |attr| ==> Unescape(Levels(attr)[i]) == TextOf(attr[i])
    ensures Prefix(attr) == if IsResource(attr) then "/node/resource" else "/node/attribute"
  {
    hide *;
    PrefixIs(attr);
    LevelsBack(attr);
    PrefixSlashed(attr);
    SlashedLevels(["node", if IsResource(attr) then "resource" else "attribute"], attr);
    EncodeIs(attr);
    LevelsLength(attr);
  }

  lemma EncodeIs(attr: seq<Item>)
    ensures Encode(attr) == Prefix(attr) + Body(attr)
    ensures IndexLevels(attr) == ["node", if IsResource(attr) then "resource" else "attribute"] + Levels(attr)
  {
  }

  lemma LevelsLength(attr: seq<Item>)
    ensures |Levels(attr)| == |attr|
  {
  }

  lemma PrefixSlashed(attr: seq<Item>)
    ensures Slashed(["node", if IsResource(attr) then "resource" else "attribute"]) ==
              if IsResource(attr) then "/node/resource" else "/node/attribute"
  {
    hide IsResource, Slashed;
    SlashedTwo("node", "resource");
    SlashedTwo("node", "attribute");
    assert "/" + "node" + "/" + "resource" == "/node/resource";
    assert "/" + "node" + "/" + "attribute" == "/node/attribute";
  }

  lemma LevelsBack(attr: seq<Item>)
    ensures forall i :: 0 <= i < |attr| ==> Unescape(Levels(attr)[i]) == TextOf(attr[i])
  {
    forall i | 0 <= i < |attr| ensures Unescape(Levels(attr)[i]) == TextOf(attr[i]) {
      UnescapeEscape(TextOf(attr[i]));
    }
  }

  /** The first k items are behind the prefix. */
  ghost predicate Coded(text: string, levels: seq<string>, prefix: string, start: seq<string>, attr: seq<Item>,
                        k: nat) {
    k <= |attr| && text == prefix + Body(attr[..k]) && levels == start + Levels(attr[..k])
  }

  lemma NoneCoded(prefix: string, start: seq<string>, attr: seq<Item>)
    ensures Coded(prefix, start, prefix, start, attr, 0)
  {
    NoBody(attr);
  }

  lemma AllCoded(text: string, levels: seq<string>, prefix: string, start: seq<string>, attr: seq<Item>)
    requires Coded(text, levels, prefix, start, attr, |attr|)
    ensures text == prefix + Body(attr) && levels == start + Levels(attr)
  {
    assert attr[..|attr|] == attr;
  }

  lemma NextCoded(text: string, levels: seq<string>, prefix: string, start: seq<string>, attr: seq<Item>, k: nat)
    requires k < |attr| && Coded(text, levels, prefix, start, attr, k)
    ensures var a := Escape(TextOf(attr[k])); Coded(text + "/" + a, levels + [a], prefix, start, attr, k + 1)
  {
    hide Body, Escape, Levels;
    BodyMore(attr, k);
    var a := Escape(TextOf(attr[k]));
    Assoc(prefix, Body(attr[..k]), "/" + a);
    Assoc(text, "/", a);
    Assoc(Body(attr[..k]), "/", a);
    Assoc(start, Levels(attr[..k]), [a]);
  }

  method EscapeItem(item: Item) returns (a: string)
    ensures a == Escape(TextOf(item))
  {
    a := "";
    if item.Text? {
      a := ReplaceChar(item.s, '\\', "\\\\");
      a := ReplaceChar(a, '/', "\\/");
    }
  }

  /** The prefix of an index in both forms. */
  method StartIndex(attr: seq<Item>) returns (text: string, levels: seq<string>)
    ensures text == Prefix(attr) && levels == ["node", if IsResource(attr) then "resource" else "attribute"]
  {
    PrefixIs(attr);
    if exists i :: 0 <= i < |attr| && attr[i].Text? && attr[i].s in RESOURCES {
      text, levels := RESOURCE_PREFIX, ["node", "resource"];
    } else {
      text, levels := ATTRIBUTE_PREFIX, ["node", "attribute"];
    }
  }

  /** The index of a node attribute: one string, or the list of its levels. */
  method EncodeIndex(attr: seq<Item>) returns (text: string, levels: seq<string>)
    ensures text == Encode(attr)
    ensures levels == ["node", if IsResource(attr) then "resource" else "attribute"] + Levels(attr)
    ensures text == Slashed(levels)
    ensures |levels| == |attr| + 2 && forall i :: 0 <= i < |attr| ==> Unescape(levels[i + 2]) == TextOf(attr[i])
  {
    hide Body, Escape, Levels, Unescape, Slashed, Coded, Encode, Prefix, IsResource;
    text, levels := StartIndex(attr);
    ghost var prefix, start := text, levels;
    NoneCoded(prefix, start, attr);
    var k := 0;
    while k < |attr|
      invariant k <= |attr| && Coded(text, levels, prefix, start, attr, k)
    {
      var a := EscapeItem(attr[k]);
      NextCoded(text, levels, prefix, start, attr, k);
      text := text + "/" + a;
      levels := levels + [a];
      k := k + 1;
    }
    AllCoded(text, levels, prefix, start, attr);
    CodedRight(text, levels, attr);
  }

  lemma CodedRight(text: string, levels: seq<string>, attr: seq<Item>)
    requires text == Prefix(attr) + Body(attr)
    requires levels == ["node", if IsResource(attr) then "resource" else "attribute"] + Levels(attr)
    ensures text == Encode(attr) && text == Slashed(levels)
    ensures |levels| == |attr| + 2 && forall i :: 0 <= i < |attr| ==> Unescape(levels[i + 2]) == TextOf(attr[i])
  {
    hide *;
    EncodeIs(attr);
    IndexIsSlashed(attr);
    AfterTwo("node", if IsResource(attr) then "resource" else "attribute", Levels(attr));
    forall i | 0 <= i < |attr| ensures Unescape(levels[i + 2]) == TextOf(attr[i]) {
      assert levels[i + 2] == Levels(attr)[i];
    }
  }

  lemma AfterTwo(first: string, second: string, rest: seq<string>)
    ensures |[first, second] + rest| == |rest| + 2
    ensures forall i :: 0 <= i < |rest| ==> ([first, second] + rest)[i + 2] == rest[i]
  {
  }

  method DecodeIndex(text: string) returns (r: Decoded)
    ensures r == Decode(text)
  {
    var rest: string;
    if RESOURCE_PREFIX <= text {
      rest := After(text, RESOURCE_PREFIX);
    } else if ATTRIBUTE_PREFIX <= text {
      rest := After(text, ATTRIBUTE_PREFIX);
    } else {
      return NotANodeAttribute;
    }
    var pieces := Split(rest);
    var items, k := [], 0;
    while k < |pieces|
      invariant k <= |pieces| && items == ItemsOf(pieces[..k])
    {
      var a := ReplacePair(pieces[k], '\\', '/', '/');
      a := ReplacePair(a, '\\', '\\', '\\');
      items := items + [if a != "" then Text(a) else Absent];
      k := k + 1;
    }
    assert pieces[..k] == pieces;
    return Items(items);
  }

  /** Splitting takes out nothing but slashes. */
  lemma {:induction false} PiecesSlashed(text: string)
    ensures Slashed(Pieces(text)) == "/" + text
  {
    hide Slashed, Separates;
    if text == "" {
      SlashedMore([], "");
      SlashedNone();
      assert [] + [""] == [""];
    } else {
      var n := |text| - 1;
      var pieces := Pieces(text[..n]);
      PiecesSlashed(text[..n]);
      assert text == text[..n] + [text[n]];
      Assoc("/", text[..n], [text[n]]);
      if Separates(text) {
        SlashedMore(pieces, "");
        SeparatesAtSlash(text);
        assert (Slashed(pieces) + "/") + "" == Slashed(pieces) + "/";
      } else {
        ExtendedSlashed(pieces, [text[n]]);
      }
    }
  }

  lemma SeparatesAtSlash(text: string)
    requires Separates(text)
    ensures [text[|text| - 1]] == "/"
  {
  }

  lemma ExtendedSlashed(pieces: seq<string>, more: string)
    requires pieces != []
    ensures Slashed(pieces[|pieces| - 1 := pieces[|pieces| - 1] + more]) == Slashed(pieces) + more
  {
    hide Slashed;
    var front, last := pieces[..|pieces| - 1], pieces[|pieces| - 1];
    assert pieces == front + [last] && pieces[|pieces| - 1 := last + more] == front + [last + more];
    SlashedMore(front, last);
    SlashedMore(front, last + more);
    Assoc(Slashed(front) + "/", last, more);
  }

  lemma ExtendEnd(pieces: seq<string>, piece: string, more: string)
    ensures Extend(pieces + [piece], more) == pieces + [piece + more]
  {
  }

  lemma PiecesNext(text: string, start: nat, k: nat, pieces: seq<string>)
    requires start <= k < |text| && pieces + [text[start..k]] == Pieces(text[..k])
    ensures Pieces(text[..k + 1]) == if Separates(text[..k + 1]) then pieces + [text[start..k]] + [text[k + 1..k + 1]]
                                     else pieces + [text[start..k + 1]]
  {
    hide Pieces, Extend, Separates;
    PiecesOne(text[..k], text[k]);
    assert text[..k + 1] == text[..k] + [text[k]];
    ExtendEnd(pieces, text[start..k], [text[k]]);
    assert text[start..k + 1] == text[start..k] + [text[k]];
    assert text[k + 1..k + 1] == "";
  }

  /** The regular expression, matched from the left. */
  method Split(text: string) returns (pieces: seq<string>)
    ensures pieces == Pieces(text)
    ensures Slashed(pieces) == "/" + text
  {
    hide Pieces, Extend, Separates;
    PiecesSlashed(text);
    pieces := [];
    var start, k := 0, 0;
    NothingSplit("");
    while k < |text|
      invariant 0 <= start <= k <= |text|
      invariant pieces + [text[start..k]] == Pieces(text[..k])
    {
      PiecesNext(text, start, k, pieces);
      if Separates(text[..k + 1]) {
        pieces := pieces + [text[start..k]];
        start := k + 1;
      }
      k := k + 1;
    }
    assert text[..k] == text;
    pieces := pieces + [text[start..]];
  }

  /* ----- round trips ----- */

  /** No slash of the text is directly after a backslash, or, if it is the first text, at its start. */
  predicate Plain(s: string, first: bool) {
    && (first && s != "" ==> s[0] != '/')
    && forall k :: 0 < k < |s| && s[k] == '/' ==> s[k - 1] != '\\'
  }

  /** The lists that come back. */
  predicate Readable(items: seq<Item>) {
    items != [] && forall i :: 0 <= i < |items| ==> Plain(TextOf(items[i]), i == 0)
  }

  lemma {:induction false} NoMisreads(s: string, n: nat, first: bool)
    requires n <= |s|
    ensures Misreads(s, n, first) == 0 <==> Plain(s[..n], first)
  {
    if n > 0 {
      NoMisreads(s, n - 1, first);
      assert s[..n - 1] == s[..n][..n - 1];
      if Plain(s[..n], first) {
        assert Plain(s[..n - 1], first);
      }
      assert s[..n][n - 1] == s[n - 1] && (n > 1 ==> s[..n][n - 2] == s[n - 2]);
      assert forall k :: 0 <= k < n - 1 ==> s[..n - 1][k] == s[..n][k];
    }
  }

  lemma {:induction false} NoBadSlashes(items: seq<Item>)
    ensures BadSlashes(items) == 0 <==> forall i :: 0 <= i < |items| ==> Plain(TextOf(items[i]), i == 0)
  {
    if items != [] {
      var n := |items| - 1;
      NoBadSlashes(items[..n]);
      var s := TextOf(items[n]);
      NoMisreads(s, |s|, n == 0);
      assert s[..|s|] == s;
      assert forall i :: 0 <= i < n ==> items[..n][i] == items[i];
    }
  }

  lemma DecodeEncode(items: seq<Item>)
    ensures Decode(Encode(items)) == Items(ItemsOf(Pieces(if items == [] then "" else Body(items)[1..])))
  {
    var text := Encode(items);
    if items != [] {
      PiecesOfBody(items);
    }
    assert text[..|Prefix(items)|] == Prefix(items);
    assert After(text, Prefix(items)) == if items == [] then "" else Body(items)[1..];
    if Prefix(items) == ATTRIBUTE_PREFIX {
      assert text[6] == 'a';
    }
  }

  /** Decoding undoes encoding, up to empty texts, for exactly the readable lists. */
  lemma RoundTrip(items: seq<Item>)
    ensures Decode(Encode(items)) == Items(NormalAll(items)) <==> Readable(items)
  {
    hide Pieces, Body, EscapeEach, Escape, Unescape, Decode, Encode, Plain;
    DecodeEncode(items);
    if items == [] {
      NothingSplit("");
    } else {
      PiecesOfBody(items);
      NoBadSlashes(items);
      if BadSlashes(items) == 0 {
        forall i | 0 <= i < |items| ensures ItemOf(Escaped(items)[i]) == Normal(items[i]) {
          EscapeIsEach(TextOf(items[i]));
          UnescapeEscape(TextOf(items[i]));
        }
        assert ItemsOf(Escaped(items)) == NormalAll(items);
      }
      assert Readable(items) <==> BadSlashes(items) == 0;
    }
  }

  /* ----- encoding loses nothing ----- */

  /** The text up to the next slash that is not escaped, and what is left. */
  function ReadItem(s: string): (r: (string, string))
    ensures |r.1| <= |s|
  {
    if s == "" || s[0] == '/' then ("", s)
    else if s[0] == '\\' && |s| > 1 then var (item, rest) := ReadItem(s[2..]); ([s[1]] + item, rest)
    else var (item, rest) := ReadItem(s[1..]); ([s[0]] + item, rest)
  }

  /** Reading from the left, with the escapes in mind. */
  function ReadBody(body: string): seq<string>
    decreases |body|
  {
    if body == "" then [] else var (item, rest) := ReadItem(body[1..]); [item] + ReadBody(rest)
  }

  lemma ReadOne(c: char, more: string)
    ensures ReadItem(EscapeChar(c) + more) == ([c] + ReadItem(more).0, ReadItem(more).1)
  {
    var text := EscapeChar(c) + more;
    if c == '\\' || c == '/' {
      assert text[2..] == more;
    } else {
      assert text[1..] == more;
    }
  }

  lemma {:induction false} ReadEscaped(s: string, rest: string)
    requires rest == "" || rest[0] == '/'
    ensures ReadItem(EscapeEach(s) + rest) == (s, rest)
  {
    hide EscapeChar;
    if s == "" {
      assert EscapeEach(s) + rest == rest;
    } else {
      ReadEscaped(s[1..], rest);
      ReadOne(s[0], EscapeEach(s[1..]) + rest);
      assert EscapeEach(s) + rest == EscapeChar(s[0]) + (EscapeEach(s[1..]) + rest);
      assert s == [s[0]] + s[1..];
    }
  }

  function TextsOf(items: seq<Item>): seq<string> {
    seq(|items|, i requires 0 <= i < |items| => TextOf(items[i]))
  }

  lemma BodyAppend(items: seq<Item>, item: Item)
    ensures Body(items + [item]) == Body(items) + ("/" + EscapeEach(TextOf(item)))
  {
    hide EscapeEach, Escape;
    EscapeIsEach(TextOf(item));
    assert (items + [item])[..|items|] == items;
  }

  lemma {:induction false} BodyFromFront(items: seq<Item>)
    requires items != []
    ensures Body(items) == "/" + EscapeEach(TextOf(items[0])) + Body(items[1..])
  {
    hide EscapeEach, Body;
    var n := |items| - 1;
    var last := items[n];
    assert items == items[..n] + [last];
    BodyAppend(items[..n], last);
    if n == 0 {
      NoBody(items);
      assert items[..0] == [] && items[1..] == [];
    } else {
      BodyFromFront(items[..n]);
      var middle := items[..n][1..];
      assert items[1..] == middle + [last];
      BodyAppend(middle, last);
    }
  }

  lemma {:induction false} ReadBodyBack(items: seq<Item>)
    ensures ReadBody(Body(items)) == TextsOf(items)
    ensures Body(items) == "" || Body(items)[0] == '/'
  {
    hide EscapeEach, ReadItem;
    if items != [] {
      var s, rest := TextOf(items[0]), Body(items[1..]);
      BodyFromFront(items);
      ReadBodyBack(items[1..]);
      ReadEscaped(s, rest);
      assert Body(items)[1..] == EscapeEach(s) + rest;
      assert TextsOf(items) == [s] + TextsOf(items[1..]);
    }
  }

  /** Different lists have different indexes, unless they differ only in empty texts. */
  lemma EncodeInjective(a: seq<Item>, b: seq<Item>)
    ensures Encode(a) == Encode(b) ==> NormalAll(a) == NormalAll(b)
  {
    if Encode(a) == Encode(b) {
      SamePrefix(a, b);
      ReadBodyBack(a);
      ReadBodyBack(b);
      forall i | 0 <= i < |a| ensures Normal(a[i]) == Normal(b[i]) {
        assert TextsOf(a)[i] == TextsOf(b)[i];
      }
    }
  }

  lemma SamePrefix(a: seq<Item>, b: seq<Item>)
    requires Encode(a) == Encode(b)
    ensures Body(a) == Body(b)
  {
    hide Body;
    assert Encode(a)[6] == Prefix(a)[6] && Encode(b)[6] == Prefix(b)[6];
    assert Body(a) == Encode(a)[|Prefix(a)|..] && Body(b) == Encode(b)[|Prefix(b)|..];
  }

  /** The empty list comes back as a list of one absent item, and a slash after a backslash cuts
      its item in two. */
  lemma NotReadable()
    ensures Decode(Encode([])) == Items([Absent])
    ensures Decode(Encode([Text("\\/")])) != Items([Text("\\/")])
  {
    hide *;
    NothingBecomesOne();
    RoundTrip([Text("\\/")]);
    EscapedSlash();
  }

  lemma NothingBecomesOne()
    ensures Decode(Encode([])) == Items([Absent])
  {
    hide Decode, Encode, Pieces, Extend;
    DecodeEncode([]);
    NothingSplit("");
  }

  lemma EscapedSlash()
    ensures !Readable([Text("\\/")]) && NormalAll([Text("\\/")]) == [Text("\\/")]
  {
    assert !Plain("\\/", true) by {
      assert "\\/"[1] == '/' && "\\/"[0] == '\\';
    }
    assert TextOf([Text("\\/")][0]) == "\\/";
  }
}
