/** What the serializer writes for nested values: the text, defined on the values themselves,
    that its tokens come out as. */
module SerializerText {
  import opened Basics
  import opened SerializerOutput

  /** A value, and the members of a container or of a document; a name may be empty. */
  datatype Value = Plain(kind: Type, text: string) | Box(isArray: bool, members: Members)
  datatype Members = Empty | Member(name: string, nameKind: Type, value: Value, rest: Members)

  predicate Proper(v: Value) {
    match v
    case Plain(kind, _) => !IsStart(kind) && !IsEnd(kind)
    case Box(_, members) => AllProper(members)
  }

  predicate AllProper(ms: Members) {
    match ms
    case Empty => true
    case Member(_, _, value, rest) => Proper(value) && AllProper(rest)
  }

  function Opening(isArray: bool): string { if isArray then "[" else "{" }

  function Closing(isArray: bool): string { if isArray then "]" else "}" }

  function StartToken(name: string, nameKind: Type, isArray: bool): Token {
    Token(name, nameKind, Opening(isArray), if isArray then ArrayStart else ObjectStart)
  }

  function EndToken(isArray: bool): Token {
    Token("", String, Closing(isArray), if isArray then ArrayEnd else ObjectEnd)
  }

  function ValueTokens(name: string, nameKind: Type, v: Value): seq<Token>
    decreases v
  {
    match v
    case Plain(kind, text) => [Token(name, nameKind, text, kind)]
    case Box(isArray, members) => [StartToken(name, nameKind, isArray)] + MemberTokens(members) + [EndToken(isArray)]
  }

  function MemberTokens(ms: Members): seq<Token>
    decreases ms
  {
    match ms
    case Empty => []
    case Member(name, nameKind, value, rest) => ValueTokens(name, nameKind, value) + MemberTokens(rest)
  }

  /** Levels of containers. */
  function Levels(v: Value): nat {
    match v
    case Plain(_, _) => 0
    case Box(_, members) => 1 + MemberLevels(members)
  }

  function MemberLevels(ms: Members): nat {
    match ms
    case Empty => 0
    case Member(_, _, value, rest) => Most(Levels(value), MemberLevels(rest))
  }

  // ---- the text of a value ----

  /** How values are set: on lines of their own or not, by how much a level is indented, whether
      commas are wanted, and whether Ascii names and values are quoted. */
  datatype Layout = Layout(pretty: bool, shift: nat, commas: bool, quoteAscii: bool)

  /** Levels that the serializer has ready-made separators for, whatever else is asked of it. */
  predicate ReadyMade(l: Layout, level: nat) { l.shift == 2 && 1 <= level <= 5 }

  function Comma(l: Layout, level: nat): string {
    if l.commas || ReadyMade(l, level) then "," else ""
  }

  function Indent(l: Layout, level: nat): string { if l.pretty then Spaces(level * l.shift) else "" }

  function Break(l: Layout, level: nat): string {
    if ReadyMade(l, level) then "\n" + Spaces(level * 2) else if l.pretty then "\n" + Indent(l, level) else ""
  }

  function Quoted(l: Layout, kind: Type, text: string): string {
    if kind.String? || (kind.Ascii? && l.quoteAscii) then "\"" + text + "\"" else if kind.Null? then "null" else text
  }

  function Key(l: Layout, name: string, kind: Type): string {
    if name == "" then "" else Quoted(l, kind, name) + if l.pretty then ": " else ":"
  }

  function ValueText(l: Layout, level: nat, v: Value): string
    decreases v
  {
    match v
    case Plain(kind, text) => Quoted(l, kind, text)
    case Box(isArray, members) =>
      Opening(isArray) + MembersText(l, level + 1, members, true) + Break(l, level) + Closing(isArray)
  }

  /** Members stand on lines of their own, with commas between them. */
  function MembersText(l: Layout, level: nat, ms: Members, first: bool): string
    decreases ms
  {
    match ms
    case Empty => ""
    case Member(name, nameKind, value, rest) =>
      (if first then "" else Comma(l, level)) + Break(l, level) + Key(l, name, nameKind) + ValueText(l, level, value)
      + MembersText(l, level, rest, false)
  }

  /** A document begins without a line break. */
  function DocumentText(l: Layout, level: nat, ms: Members): string {
    match ms
    case Empty => ""
    case Member(name, nameKind, value, rest) =>
      Indent(l, level) + Key(l, name, nameKind) + ValueText(l, level, value) + MembersText(l, level, rest, false)
  }

  // ---- the tokens come out as that text ----

  function LayoutOf(o: Options): Layout {
    Layout(o.style.Pretty?, o.shiftSize, o.tokenDelimiter != "", o.convertAscii)
  }

  /** The separators are those of the style, depth and indentation in force. */
  predicate Consistent(o: Options) {
    && o.depth < DEPTHS && o.postfix == (if o.style.Pretty? then "\n" else "")
    && o.prefix == if o.style.Pretty? then Spaces(o.depth * o.shiftSize) else ""
  }

  lemma DepthConsistent(o: Options, depth: nat)
    requires Consistent(o) && depth < DEPTHS
    ensures Consistent(SetDepth(o, depth)) && LayoutOf(SetDepth(o, depth)) == LayoutOf(o)
    ensures SetDepth(o, depth).depth == depth && SetDepth(SetDepth(o, depth), o.depth) == o
  {}

  /** Pretty style indents by two and breaks lines, Compact style does neither, and both begin at
      depth zero, want commas and quote Ascii text. The setters change what they are named for;
      a new indentation shows from the next change of depth on. */
  lemma LayoutOfSetters(o: Options, style: Style, size: nat, depth: nat, flag: bool)
    requires Consistent(o) && depth < DEPTHS
    ensures LayoutOf(MakeOptions(Pretty)) == Layout(true, 2, true, true) && Consistent(MakeOptions(Pretty))
    ensures LayoutOf(MakeOptions(Compact)) == Layout(false, 0, true, true) && Consistent(MakeOptions(Compact))
    ensures MakeOptions(style).depth == 0 && SetStyle(o, style).depth == o.depth
    ensures Consistent(SetStyle(o, style)) && LayoutOf(SetStyle(o, style)) == LayoutOf(o).(pretty := style.Pretty?)
    ensures Consistent(SkipDelimiter(o, flag)) && LayoutOf(SkipDelimiter(o, flag)) == LayoutOf(o).(commas := !flag)
    ensures var resized := SetDepth(SetShiftSize(o, size), depth);
      Consistent(resized) && LayoutOf(resized) == LayoutOf(o).(shift := size) && resized.depth == depth
  {
    assert MakeOptions(Pretty).prefix == Spaces(0 * 2);
  }

  /** What is written in front of a member that is not the first of the document, or of an end. */
  lemma FrontIs(w: Writer, isEnd: bool)
    requires Consistent(w.option) && !w.first
    ensures var l, level := LayoutOf(w.option), w.option.depth;
      ActualFront(w, isEnd) == (if w.tokenStart || isEnd then "" else Comma(l, level)) + Break(l, level)
  {
    var l, level := LayoutOf(w.option), w.option.depth;
    assert level * 2 == 2 * level;
    assert w.option.postfix + w.option.prefix == if l.pretty then "\n" + Indent(l, level) else "";
  }

  lemma FirstFrontIs(w: Writer)
    requires Consistent(w.option) && w.first && w.tokenStart
    ensures ActualFront(w, false) == Indent(LayoutOf(w.option), w.option.depth)
  {}

  /** What stands in front of the next member. */
  function Lead(w: Writer): string {
    var l, level := LayoutOf(w.option), w.option.depth;
    if w.first then Indent(l, level) else (if w.tokenStart then "" else Comma(l, level)) + Break(l, level)
  }

  lemma LeadIs(w: Writer)
    requires Consistent(w.option) && (w.first ==> w.tokenStart)
    ensures ActualFront(w, false) == Lead(w)
  {
    if w.first { FirstFrontIs(w); } else { FrontIs(w, false); }
  }

  lemma TextIs(o: Options, kind: Type, text: string)
    ensures Text(o, kind, text) == Quoted(LayoutOf(o), kind, text)
  {}

  lemma NameIs(o: Options, t: Token)
    ensures Name(o, t) == Key(LayoutOf(o), t.name, t.nameType)
  {
    TextIs(o, t.nameType, t.name);
  }

  function Behind(o: Options): Writer { Writer(o, false, false) }

  lemma RenderOne(w: Writer, t: Token, rest: seq<Token>)
    ensures Render(w, [t] + rest) == Emitted(w, t) + Render(After(w, t), rest)
  {
    assert ([t] + rest)[1..] == rest;
    hide Emitted, After;
  }

  /** The text of a token that is no end, and the writer behind it. */
  lemma EmittedIs(w: Writer, t: Token)
    requires Consistent(w.option) && (w.first ==> w.tokenStart) && !IsEnd(t.valueType)
    ensures var l := LayoutOf(w.option);
      Emitted(w, t) == Lead(w) + Key(l, t.name, t.nameType) + Quoted(l, t.valueType, t.value)
    ensures After(w, t) == if IsStart(t.valueType) then Inside(w.option) else Behind(w.option)
  {
    LeadIs(w);
    NameIs(w.option, t);
    TextIs(w.option, t.valueType, t.value);
    hide ActualFront, Name, Text, Lead, Key, Quoted, SetDepth;
  }

  /** The writer at the start of a container. */
  function Inside(o: Options): Writer { Writer(SetDepth(o, o.depth + 1), false, true) }

  /** The text of the end of a container whose content was written at one level more. */
  lemma EmittedEnd(w: Writer, o: Options, isArray: bool)
    requires Consistent(o) && o.depth + 1 < DEPTHS && w.option == SetDepth(o, o.depth + 1) && !w.first
    ensures Emitted(w, EndToken(isArray)) == Break(LayoutOf(o), o.depth) + Closing(isArray)
    ensures After(w, EndToken(isArray)) == Behind(o)
  {
    DepthConsistent(o, o.depth + 1);
    var v, t := Leave(w, true), EndToken(isArray);
    assert v == Writer(o, false, w.tokenStart);
    FrontIs(v, true);
    assert Name(o, t) == "" && Text(o, t.valueType, t.value) == Closing(isArray);
    hide ActualFront, Name, Text, Break, SetDepth;
  }

  /** A value, whatever comes behind it. */
  lemma {:induction false} RenderValue(w: Writer, name: string, nameKind: Type, v: Value, rest: seq<Token>)
    requires Consistent(w.option) && (w.first ==> w.tokenStart) && Proper(v)
    requires w.option.depth + Levels(v) < DEPTHS
    ensures var l := LayoutOf(w.option);
      Render(w, ValueTokens(name, nameKind, v) + rest)
        == Lead(w) + Key(l, name, nameKind) + ValueText(l, w.option.depth, v) + Render(Behind(w.option), rest)
    decreases v
  {
    match v
    case Plain(kind, text) =>
      var t := Token(name, nameKind, text, kind);
      assert Proper(v) ==> !IsStart(kind) && !IsEnd(kind);
      hide Render, Emitted, After, Lead, Key, Quoted, LayoutOf, Consistent;
      EmittedIs(w, t);
      RenderOne(w, t, rest);
    case Box(isArray, members) =>
      assert Levels(v) == 1 + MemberLevels(members) && AllProper(members);
      hide Render, Emitted, After, Lead, Key, LayoutOf, Consistent, MembersText, Break, StartToken, EndToken;
      RenderBox(w, name, nameKind, isArray, members, rest);
  }

  lemma {:induction false} RenderBox(w: Writer, name: string, nameKind: Type, isArray: bool, members: Members,
                                     rest: seq<Token>)
    requires Consistent(w.option) && (w.first ==> w.tokenStart) && AllProper(members)
    requires w.option.depth + 1 + MemberLevels(members) < DEPTHS
    ensures var l, d := LayoutOf(w.option), w.option.depth;
      Render(w, [StartToken(name, nameKind, isArray)] + MemberTokens(members) + [EndToken(isArray)] + rest)
        == Lead(w) + Key(l, name, nameKind)
           + (Opening(isArray) + MembersText(l, d + 1, members, true) + Break(l, d) + Closing(isArray))
           + Render(Behind(w.option), rest)
    decreases members, 1
  {
    var o, l, d := w.option, LayoutOf(w.option), w.option.depth;
    var start, body, last := StartToken(name, nameKind, isArray), MemberTokens(members), [EndToken(isArray)] + rest;
    hide *;
    GlueTokens([start], body, [EndToken(isArray)], rest);
    BoxParts(o, start, name, nameKind, isArray);
    BehindIs(Inside(o).option);
    EmittedIs(w, start);
    RenderOne(w, start, body + last);
    RenderMembers(Inside(o), members, last);
    var w2 := if members.Empty? then Inside(o) else Behind(Inside(o).option);
    EmittedEnd(w2, o, isArray);
    RenderOne(w2, EndToken(isArray), rest);
    Glue(Lead(w), Key(l, name, nameKind), Opening(isArray), MembersText(l, d + 1, members, true), Break(l, d),
         Closing(isArray), Render(Behind(o), rest));
  }

  lemma BoxParts(o: Options, start: Token, name: string, nameKind: Type, isArray: bool)
    requires Consistent(o) && o.depth + 1 < DEPTHS && start == StartToken(name, nameKind, isArray)
    ensures IsStart(start.valueType) && !IsEnd(start.valueType) && start.name == name && start.nameType == nameKind
    ensures Quoted(LayoutOf(o), start.valueType, start.value) == Opening(isArray)
    ensures Consistent(Inside(o).option) && LayoutOf(Inside(o).option) == LayoutOf(o)
    ensures Inside(o).option == SetDepth(o, o.depth + 1) && Inside(o).option.depth == o.depth + 1
    ensures !Inside(o).first && Inside(o).tokenStart
    ensures Behind(Inside(o).option).option == Inside(o).option && !Behind(Inside(o).option).first
  {
    DepthConsistent(o, o.depth + 1);
  }

  lemma BehindIs(o: Options)
    ensures Behind(o).option == o && !Behind(o).first && !Behind(o).tokenStart
  {}

  lemma GlueTokens(a: seq<Token>, b: seq<Token>, c: seq<Token>, d: seq<Token>)
    ensures a + b + c + d == a + (b + (c + d))
  {}

  lemma Glue(a: string, b: string, c: string, d: string, e: string, f: string, r: string)
    ensures (a + b + c) + (d + ((e + f) + r)) == a + b + (c + d + e + f) + r
  {}

  lemma {:induction false} RenderMembers(w: Writer, ms: Members, rest: seq<Token>)
    requires Consistent(w.option) && !w.first && AllProper(ms) && w.option.depth + MemberLevels(ms) < DEPTHS
    ensures Render(w, MemberTokens(ms) + rest)
         == MembersText(LayoutOf(w.option), w.option.depth, ms, w.tokenStart)
            + Render(if ms.Empty? then w else Behind(w.option), rest)
    decreases ms, 0
  {
    hide *;
    if ms.Empty? {
      NoMembers(w, ms, rest);
    } else {
      FirstMember(w, ms, rest);
      BehindIs(w.option);
      RenderValue(w, ms.name, ms.nameKind, ms.value, MemberTokens(ms.rest) + rest);
      RenderMembers(Behind(w.option), ms.rest, rest);
      var l, d := LayoutOf(w.option), w.option.depth;
      GlueMember(Lead(w) + Key(l, ms.name, ms.nameKind) + ValueText(l, d, ms.value), MembersText(l, d, ms.rest, false),
                 Render(Behind(w.option), rest));
    }
  }

  lemma NoMembers(w: Writer, ms: Members, rest: seq<Token>)
    requires ms.Empty?
    ensures MemberTokens(ms) + rest == rest
    ensures MembersText(LayoutOf(w.option), w.option.depth, ms, w.tokenStart) == ""
    ensures "" + Render(w, rest) == Render(w, rest)
  {
    hide Render;
  }

  lemma FirstMember(w: Writer, ms: Members, rest: seq<Token>)
    requires ms.Member? && !w.first && AllProper(ms)
    ensures Proper(ms.value) && AllProper(ms.rest)
    ensures Levels(ms.value) <= MemberLevels(ms) && MemberLevels(ms.rest) <= MemberLevels(ms)
    ensures MemberTokens(ms) + rest == ValueTokens(ms.name, ms.nameKind, ms.value) + (MemberTokens(ms.rest) + rest)
    ensures var l, d := LayoutOf(w.option), w.option.depth;
      MembersText(l, d, ms, w.tokenStart)
        == (Lead(w) + Key(l, ms.name, ms.nameKind) + ValueText(l, d, ms.value)) + MembersText(l, d, ms.rest, false)
  {
    GlueTokens([], ValueTokens(ms.name, ms.nameKind, ms.value), MemberTokens(ms.rest), rest);
    hide ValueTokens, Key, ValueText, Comma, Break;
  }

  lemma GlueMember(a: string, b: string, r: string)
    ensures a + (b + r) == (a + b) + r
  {}

  /** reformat writes a document as its values say: members on lines of their own or side by
      side, with commas between them, names in front, and brackets around. */
  lemma RenderDocument(options: Options, ms: Members)
    requires Consistent(options) && AllProper(ms) && options.depth + MemberLevels(ms) < DEPTHS
    ensures Render(Writer(options, true, true), MemberTokens(ms))
         == DocumentText(LayoutOf(options), options.depth, ms)
  {
    match ms
    case Empty =>
    case Member(name, nameKind, value, others) =>
      var w := Writer(options, true, true);
      assert MemberTokens(others) + [] == MemberTokens(others);
      assert Lead(w) == Indent(LayoutOf(options), options.depth);
      assert Render(Behind(options), []) == "";
      hide Render, Key, Lead, Indent, LayoutOf, Consistent, ValueText, ValueTokens;
      RenderValue(w, name, nameKind, value, MemberTokens(others));
      RenderMembers(Behind(options), others, []);
  }

  /** The same for the method: whatever buffer it starts with, this is what it leaves. */
  method ReformatDocument(ms: Members, options: Options, initial: string) returns (out: string)
    requires Reachable(options) && Consistent(options) && AllProper(ms) && options.depth + MemberLevels(ms) < DEPTHS
    ensures out == DocumentText(LayoutOf(options), options.depth, ms)
  {
    RenderDocument(options, ms);
    out := Reformat(MemberTokens(ms), options, initial);
  }

  /** Without an indentation of two, or in Pretty style with commas, that is what the options ask
      for: a comma between members if they want it, line breaks and indentation in Pretty style. */
  lemma LayoutAsAsked(l: Layout, level: nat)
    ensures l.shift != 2 || l.pretty ==> Break(l, level) == if l.pretty then "\n" + Spaces(level * l.shift) else ""
    ensures l.shift != 2 || l.commas ==> Comma(l, level) == if l.commas then "," else ""
  {}

  /** {"a":1,"b":2} in Compact style. */
  lemma CompactObject()
    ensures Render(Writer(MakeOptions(Compact), true, true), MemberTokens(Object(TwoMembers()))) == "{\"a\":1,\"b\":2}"
  {
    var o := MakeOptions(Compact);
    CompactParts(LayoutOf(o));
    assert Consistent(o) && AllProper(Object(TwoMembers()));
    assert MemberLevels(TwoMembers()) == 0;
    assert MemberLevels(Object(TwoMembers())) == 1;
    hide Render, MembersText, MemberTokens;
    RenderDocument(o, Object(TwoMembers()));
  }

  function TwoMembers(): Members {
    Member("a", Ascii, Plain(Number, "1"), Member("b", Ascii, Plain(Number, "2"), Empty))
  }

  function Object(ms: Members): Members { Member("", Ascii, Box(false, ms), Empty) }

  lemma CompactParts(l: Layout)
    requires l == LayoutOf(MakeOptions(Compact))
    ensures DocumentText(l, 0, Object(TwoMembers())) == "{\"a\":1,\"b\":2}"
  {
    var second := Member("b", Ascii, Plain(Number, "2"), Empty);
    CompactMember(l, "b", "2", Empty, false);
    CompactMember(l, "a", "1", second, true);
    assert ValueText(l, 0, Box(false, TwoMembers())) == "{" + MembersText(l, 1, TwoMembers(), true) + "" + "}";
    assert DocumentText(l, 0, Object(TwoMembers())) == "" + "" + ValueText(l, 0, Box(false, TwoMembers())) + "";
    hide MembersText, ValueText, DocumentText;
  }

  lemma CompactMember(l: Layout, name: string, text: string, rest: Members, first: bool)
    requires l == LayoutOf(MakeOptions(Compact)) && name != ""
    ensures MembersText(l, 1, Member(name, Ascii, Plain(Number, text), rest), first)
         == (if first then "" else ",") + "" + (("\"" + name + "\"") + ":") + text + MembersText(l, 1, rest, false)
  {
    assert Quoted(l, Ascii, name) == "\"" + name + "\"" && Quoted(l, Number, text) == text;
    assert Key(l, name, Ascii) == ("\"" + name + "\"") + ":";
    assert Break(l, 1) == "" && Comma(l, 1) == ",";
    assert ValueText(l, 1, Plain(Number, text)) == text;
    hide Key, Break, Comma, Quoted, ValueText;
  }
}
