/** The JSON serializer: tokens become text, and the text goes out through a buffer that is
    doubled whenever it is full. */
module SerializerOutput {
  import opened Basics
  import CM = ContainerMeta

  // ---- options ----

  datatype Style = Pretty | Compact

  datatype Options = Options(shiftSize: nat, depth: nat, style: Style, convertAscii: bool, tokenDelimiter: string,
                             postfix: string, prefix: string)

  const DEPTHS: nat := 256   // the depth is an unsigned char

  function Spaces(n: nat): (s: string)
    ensures |s| == n
    ensures forall k :: 0 <= k < n ==> s[k] == ' '
  {
    seq(n, _ => ' ')
  }

  /** SerializerOptions(style). */
  function MakeOptions(style: Style): Options {
    Options(if style.Compact? then 0 else 2, 0, style, true, ",", if style.Pretty? then "\n" else "", "")
  }

  function SetDepth(o: Options, depth: nat): Options {
    o.(depth := depth % DEPTHS, prefix := if o.style.Pretty? then Spaces(depth * o.shiftSize) else "")
  }

  function SetStyle(o: Options, style: Style): Options {
    SetDepth(o.(style := style, postfix := if style.Pretty? then "\n" else ""), o.depth)
  }

  function SetShiftSize(o: Options, size: nat): Options { o.(shiftSize := size) }

  function SkipDelimiter(o: Options, skip: bool): Options { o.(tokenDelimiter := if skip then "" else ",") }

  /** What the setters keep. */
  ghost predicate Reachable(o: Options) {
    && o.depth < DEPTHS && o.postfix == (if o.style.Pretty? then "\n" else "")
    && (exists n: nat :: o.prefix == Spaces(n)) && (o.style.Compact? ==> o.prefix == "")
  }

  lemma SettersKeepReachable(o: Options, style: Style, n: nat, flag: bool)
    requires Reachable(o)
    ensures Reachable(MakeOptions(style)) && Reachable(SetDepth(o, n)) && Reachable(SetStyle(o, style))
    ensures Reachable(SetShiftSize(o, n)) && Reachable(SkipDelimiter(o, flag))
  {
    assert MakeOptions(style).prefix == Spaces(0);
    assert SetDepth(o, n).prefix == Spaces(if o.style.Pretty? then n * o.shiftSize else 0);
    assert SetStyle(o, style).prefix == Spaces(if style.Pretty? then o.depth * o.shiftSize else 0);
  }

  lemma DefaultIsReachable()
    ensures Reachable(MakeOptions(Pretty))
  {
    assert MakeOptions(Pretty).prefix == Spaces(0);
  }

  lemma DepthKeepsReachable(o: Options, n: int)
    requires Reachable(o)
    ensures n >= 0 ==> Reachable(SetDepth(o, n))
  {
    if n >= 0 { SettersKeepReachable(o, o.style, n, false); }
    hide Reachable;
  }

  // ---- one token ----

  datatype Type = Error | String | Ascii | Number | ObjectStart | ObjectEnd | ArrayStart | ArrayEnd | Bool | Null
      | Verbatim

  datatype Token = Token(name: string, nameType: Type, value: string, valueType: Type)

  predicate IsStart(t: Type) { t.ObjectStart? || t.ArrayStart? }

  predicate IsEnd(t: Type) { t.ObjectEnd? || t.ArrayEnd? }

  datatype Writer = Writer(option: Options, first: bool, tokenStart: bool)

  /** Whether the front of a token is one of the ready-made literals. */
  predicate Shortcut(w: Writer) {
    w.option.shiftSize == 2 && !w.first && 1 <= w.option.depth <= 5
  }

  /** A comma is due before a token that neither opens nor closes its container. */
  predicate CommaDue(w: Writer, isEnd: bool) { !w.tokenStart && !isEnd }

  function Literal(w: Writer, isEnd: bool): string {
    (if CommaDue(w, isEnd) then "," else "") + "\n" + Spaces(2 * w.option.depth)
  }

  /** What the options ask for in front of a token. */
  function Front(w: Writer, isEnd: bool): string {
    (if CommaDue(w, isEnd) && w.option.tokenDelimiter != "" then "," else "")
    + (if w.first then "" else w.option.postfix) + w.option.prefix
  }

  function ActualFront(w: Writer, isEnd: bool): string {
    if Shortcut(w) then Literal(w, isEnd) else Front(w, isEnd)
  }

  function Text(o: Options, t: Type, data: string): string {
    match t
    case String => "\"" + data + "\""
    case Ascii => if o.convertAscii then "\"" + data + "\"" else data
    case Null => "null"
    case _ => data
  }

  function Name(o: Options, t: Token): string {
    if t.name == "" then "" else Text(o, t.nameType, t.name) + if o.style.Pretty? then ": " else ":"
  }

  /** An end token first leaves its container's depth. */
  function Leave(w: Writer, isEnd: bool): Writer
    requires isEnd ==> w.option.depth > 0
  {
    if isEnd then w.(option := SetDepth(w.option, w.option.depth - 1)) else w
  }

  /** What a token adds to the text; an end token at depth zero is dropped. */
  function Emitted(w: Writer, t: Token): string {
    var isEnd := IsEnd(t.valueType);
    if isEnd && w.option.depth == 0 then ""
    else
      var v := Leave(w, isEnd);
      ActualFront(v, isEnd) + Name(v.option, t) + Text(v.option, t.valueType, t.value)
  }

  function After(w: Writer, t: Token): Writer {
    var isEnd := IsEnd(t.valueType);
    if isEnd && w.option.depth == 0 then w
    else
      var v := Leave(w, isEnd);
      var start := IsStart(t.valueType);
      Writer(if start then SetDepth(v.option, v.option.depth + 1) else v.option, false, start)
  }

  /** The ready-made literals say what the options ask for exactly when the style in force
      is Pretty with an indentation of two per level, and a comma that is due is wanted. */
  lemma LiteralIsFront(w: Writer, isEnd: bool)
    requires Reachable(w.option) && Shortcut(w)
    ensures Literal(w, isEnd) == Front(w, isEnd) <==>
            (w.option.style.Pretty? && |w.option.prefix| == 2 * w.option.depth
             && (CommaDue(w, isEnd) ==> w.option.tokenDelimiter != ""))
  {
    var l, f, n := Literal(w, isEnd), Front(w, isEnd), 2 * w.option.depth;
    var m: nat :| w.option.prefix == Spaces(m);
    assert w.option.style.Compact? ==> f == "" || f == ",";
    if l == f {
      if CommaDue(w, isEnd) { assert l[0] == ',' == f[0]; }
      assert |l| == |f|;
    } else if m == n && w.option.style.Pretty? {
      assert w.option.prefix == Spaces(n);
    }
  }

  lemma Reassociate(a: string, b: string, c: string, d: string)
    ensures a + b + c + d == a + (b + c + d) && b + c + "" == b + c
  {}

  // ---- the buffer ----

  class Serializer {
    var writer: Writer
    var out: string        // the whole string; the current buffer is its part from lastPos on
    var lastPos: nat
    var size: nat
    var used: nat

    ghost predicate Valid()
      reads this
    {
      used <= size && lastPos + size == |out| && |out| > 0 && Reachable(writer.option)
    }

    /** The text written so far. */
    ghost function Contents(): string
      requires Valid()
      reads this
    {
      out[..lastPos + used]
    }

    /** The string given may be empty; otherwise its length is the first buffer's size. */
    constructor (initial: string)
      ensures Valid() && Contents() == "" && writer == Writer(MakeOptions(Pretty), true, true)
    {
      writer := Writer(MakeOptions(Pretty), true, true);
      out := if initial == "" then seq(4096, _ => '\0') else initial;
      lastPos, used := 0, 0;
      size := if initial == "" then 4096 else |initial|;
      DefaultIsReachable();
    }

    method SetOptions(options: Options)
      requires Valid() && Reachable(options)
      modifies this`writer
      ensures Valid() && Contents() == old(Contents()) && writer == old(writer).(option := options)
    {
      writer := writer.(option := options);
    }

    /** markCurrentSerializerBufferFull with the doubling callback. */
    method RequestBuffer()
      requires Valid() && used == size
      modifies this`out, this`lastPos, this`size, this`used
      ensures Valid() && Contents() == old(Contents()) && used == 0 && size > 0
    {
      hide Reachable;
      var end := |out|;
      out := out + seq(end, _ => '\0');
      lastPos, size, used := end, end, 0;
    }

    /** SerializerBuffer::append: memcpy to the used end of the buffer. */
    method Append(data: string)
      requires Valid() && used + |data| <= size
      modifies this`out, this`used
      ensures Valid() && Contents() == old(Contents()) + data
    {
      hide Reachable;
      var at := lastPos + used;
      out := out[..at] + data + out[at + |data|..];
      used := used + |data|;
    }

    /** Serializer::write: however the data falls on the buffers, it is appended whole. */
    method Write(data: string)
      requires Valid()
      modifies this`out, this`lastPos, this`size, this`used
      ensures Valid() && Contents() == old(Contents()) + data
    {
      hide Reachable;
      var written := 0;
      while written < |data|
        invariant Valid() && written <= |data|
        invariant Contents() == old(Contents()) + data[..written]
        decreases |data| - written, if used == size then 1 else 0
      {
        var free := size - used;
        if free == 0 {
          RequestBuffer();
        } else {
          var toWrite := if |data| - written < free then |data| - written else free;
          Append(data[written..written + toWrite]);
          assert data[..written] + data[written..written + toWrite] == data[..written + toWrite];
          written := written + toWrite;
        }
      }
    }

    /** The write of a string literal: in one piece when it fits. */
    method WriteLiteral(data: string)
      requires Valid()
      modifies this`out, this`lastPos, this`size, this`used
      ensures Valid() && Contents() == old(Contents()) + data
    {
      hide Reachable;
      if size - used < |data| { Write(data); } else { Append(data); }
    }

    method WriteText(t: Type, data: string)
      requires Valid()
      modifies this`out, this`lastPos, this`size, this`used
      ensures Valid() && Contents() == old(Contents()) + Text(writer.option, t, data)
    {
      hide Reachable;
      match t
      case String => WriteAsString(data);
      case Ascii => if writer.option.convertAscii { WriteAsString(data); } else { Write(data); }
      case Null => Write("null");
      case _ => Write(data);
    }

    method WriteAsString(data: string)
      requires Valid()
      modifies this`out, this`lastPos, this`size, this`used
      ensures Valid() && Contents() == old(Contents()) + ("\"" + data + "\"")
    {
      hide Reachable;
      WriteLiteral("\"");
      Write(data);
      WriteLiteral("\"");
      assert old(Contents()) + "\"" + data + "\"" == old(Contents()) + ("\"" + data + "\"");
    }

    /** The part of Serializer::write(Token) before the name. */
    method WriteFront(isEnd: bool)
      requires Valid()
      modifies this
      ensures Valid() && Contents() == old(Contents()) + ActualFront(old(writer), isEnd)
      ensures writer == old(writer).(first := false)
    {
      hide Reachable;
      var o := writer.option;
      if Shortcut(writer) {
        WriteLiteral(Literal(writer, isEnd));
      } else {
        if !writer.tokenStart && !isEnd && o.tokenDelimiter != "" { WriteLiteral(","); }
        if writer.first { writer := writer.(first := false); } else { Write(o.postfix); }
        Write(o.prefix);
      }
    }

    method WriteName(t: Token)
      requires Valid()
      modifies this`out, this`lastPos, this`size, this`used
      ensures Valid() && Contents() == old(Contents()) + Name(writer.option, t)
    {
      if t.name == "" { return; }
      hide Text, Reachable;
      WriteText(t.nameType, t.name);
      if writer.option.style.Pretty? { WriteLiteral(": "); } else { WriteLiteral(":"); }
      Reassociate(old(Contents()), Text(writer.option, t.nameType, t.name),
                  if writer.option.style.Pretty? then ": " else ":", "");
    }

    /** Serializer::write(Token). */
    method WriteToken(t: Token) returns (ok: bool)
      requires Valid()
      modifies this
      ensures Valid() && Contents() == old(Contents()) + Emitted(old(writer), t)
      ensures writer == After(old(writer), t)
      ensures ok == !(IsEnd(t.valueType) && old(writer.option.depth) == 0)
    {
      hide ActualFront, Name, Text, SetDepth, Reachable;
      var isEnd := IsEnd(t.valueType);
      if isEnd {
        if writer.option.depth == 0 { return false; }
        DepthKeepsReachable(writer.option, writer.option.depth - 1);
        writer := writer.(option := SetDepth(writer.option, writer.option.depth - 1));
      }
      ghost var c, v := Contents(), writer;
      assert v == Leave(old(writer), isEnd);
      DepthKeepsReachable(v.option, v.option.depth + 1);
      WriteFront(isEnd);
      WriteName(t);
      WriteText(t.valueType, t.value);
      Reassociate(c, ActualFront(v, isEnd), Name(v.option, t), Text(v.option, t.valueType, t.value));
      var start := IsStart(t.valueType);
      writer := writer.(tokenStart := start);
      if start { writer := writer.(option := SetDepth(writer.option, writer.option.depth + 1)); }
      ok := true;
    }
  }

  /** The text of a token sequence: it does not mention buffers. */
  function Render(w: Writer, tokens: seq<Token>): string
    decreases |tokens|
  {
    if tokens == [] then "" else Emitted(w, tokens[0]) + Render(After(w, tokens[0]), tokens[1..])
  }

  lemma NothingLeft(w: Writer, tokens: seq<Token>)
    requires |tokens| == 0
    ensures Render(w, tokens) == ""
  {}

  lemma RenderStep(w: Writer, tokens: seq<Token>, i: nat)
    requires i < |tokens|
    ensures Render(w, tokens[i..]) == Emitted(w, tokens[i]) + Render(After(w, tokens[i]), tokens[i + 1..])
  {
    assert tokens[i..][1..] == tokens[i + 1..];
  }

  /** reformat, on the tokens of its input: the result is the same for every first buffer. */
  method Reformat(tokens: seq<Token>, options: Options, initial: string) returns (out: string)
    requires Reachable(options)
    ensures out == Render(Writer(options, true, true), tokens)
  {
    hide Render, Emitted, After, Reachable;
    var s := new Serializer(initial);
    s.SetOptions(options);
    var w0 := s.writer;
    assert tokens[0..] == tokens;
    assert "" + Render(w0, tokens) == Render(w0, tokens);
    for i := 0 to |tokens|
      invariant s.Valid()
      invariant s.Contents() + Render(s.writer, tokens[i..]) == Render(w0, tokens)
      modifies s
    {
      RenderStep(s.writer, tokens, i);
      Reassociate(s.Contents(), Emitted(s.writer, tokens[i]), Render(After(s.writer, tokens[i]), tokens[i + 1..]), "");
      var ok := s.WriteToken(tokens[i]);
    }
    NothingLeft(s.writer, tokens[|tokens|..]);
    out := s.out[..s.lastPos + s.used];
  }

  // ---- nesting ----

  function Kind(t: Token): CM.Token {
    if IsStart(t.valueType) then CM.Start(t.valueType.ArrayStart?)
    else if IsEnd(t.valueType) then CM.End(t.valueType.ArrayEnd?)
    else CM.Scalar
  }

  function Kinds(tokens: seq<Token>): (k: seq<CM.Token>)
    ensures |k| == |tokens| && forall i :: 0 <= i < |k| ==> k[i] == Kind(tokens[i])
  {
    seq(|tokens|, i requires 0 <= i < |tokens| => Kind(tokens[i]))
  }

  /** The 8-bit depth over a token sequence; None once an end token is dropped. */
  function DepthRun(d: Option<nat>, kinds: seq<CM.Token>): Option<nat> {
    if kinds == [] then d
    else
      match DepthRun(d, kinds[..|kinds| - 1])
      case None => None
      case Some(n) => DepthStep(n, kinds[|kinds| - 1])
  }

  function DepthStep(n: nat, k: CM.Token): Option<nat> {
    match k
    case Scalar => Some(n)
    case Start(_) => Some((n + 1) % DEPTHS)
    case End(_) => if n == 0 then None else Some(n - 1)
  }

  lemma {:induction false} DepthRunConcat(d: Option<nat>, a: seq<CM.Token>, b: seq<CM.Token>)
    ensures DepthRun(d, a + b) == DepthRun(DepthRun(d, a), b)
    ensures d == None ==> DepthRun(d, b) == None
  {
    if b == [] {
      assert a + b == a;
    } else {
      DepthRunConcat(d, a, b[..|b| - 1]);
      assert (a + b)[..|a + b| - 1] == a + b[..|b| - 1];
    }
  }

  function Height(f: CM.Forest): nat {
    match f
    case Nil => 0
    case Cons(first, rest) => if HeightTree(first) < Height(rest) then Height(rest) else HeightTree(first)
  }

  function HeightTree(t: CM.Tree): nat {
    match t
    case Leaf => 0
    case Node(_, members) => 1 + Height(members)
  }

  /** Every token of nested values is written, and the depth restored, exactly when the
      values nest to less than 256 levels; deeper, a closing bracket is lost. */
  lemma {:induction false} DepthOfForest(d: nat, f: CM.Forest)
    requires d < DEPTHS
    ensures DepthRun(Some(d), CM.AllTokens(f)) == if d + Height(f) < DEPTHS then Some(d) else None
    decreases f
  {
    match f
    case Nil =>
    case Cons(first, rest) =>
      DepthOfTree(d, first);
      DepthOfForest(d, rest);
      DepthRunConcat(Some(d), CM.Tokens(first), CM.AllTokens(rest));
      DepthRunConcat(None, CM.Tokens(first), CM.AllTokens(rest));
  }

  lemma {:induction false} DepthOfTree(d: nat, t: CM.Tree)
    requires d < DEPTHS
    ensures DepthRun(Some(d), CM.Tokens(t)) == if d + HeightTree(t) < DEPTHS then Some(d) else None
    decreases t
  {
    match t
    case Leaf => DepthOne(Some(d), CM.Scalar);
    case Node(a, members) =>
      var start, body, end := [CM.Start(a)], CM.AllTokens(members), [CM.End(a)];
      var inside := (d + 1) % DEPTHS;
      assert CM.Tokens(t) == start + body + end && HeightTree(t) == 1 + Height(members);
      hide DepthRun, CM.Tokens, CM.AllTokens, Height, HeightTree;
      DepthOfForest(inside, members);
      DepthOne(Some(d), CM.Start(a));
      DepthOne(DepthRun(Some(inside), body), CM.End(a));
      DepthRunConcat(Some(d), start + body, end);
      DepthRunConcat(Some(d), start, body);
  }

  lemma DepthOne(d: Option<nat>, k: CM.Token)
    ensures DepthRun(d, [k]) == if d == None then None else DepthStep(d.value, k)
  {
    assert [k][..0] == [];
  }

  function AfterAll(w: Writer, tokens: seq<Token>): Writer
    decreases |tokens|
  {
    if tokens == [] then w else AfterAll(After(w, tokens[0]), tokens[1..])
  }

  /** Whether no token is dropped. */
  predicate AllWritten(w: Writer, tokens: seq<Token>)
    decreases |tokens|
  {
    tokens == [] ||
    (!(IsEnd(tokens[0].valueType) && w.option.depth == 0) && AllWritten(After(w, tokens[0]), tokens[1..]))
  }

  lemma {:induction false} WriterFollowsDepth(w: Writer, tokens: seq<Token>)
    requires w.option.depth < DEPTHS
    ensures DepthRun(Some(w.option.depth), Kinds(tokens))
         == if AllWritten(w, tokens) then Some(AfterAll(w, tokens).option.depth) else None
    decreases |tokens|
  {
    if tokens != [] {
      var t := tokens[0];
      WriterFollowsDepth(After(w, t), tokens[1..]);
      assert Kinds(tokens) == [Kind(t)] + Kinds(tokens[1..]);
      DepthOne(Some(w.option.depth), Kind(t));
      DepthRunConcat(Some(w.option.depth), [Kind(t)], Kinds(tokens[1..]));
      DepthRunConcat(None, [], Kinds(tokens[1..]));
      StepDepth(w, t);
    } else {
      assert Kinds(tokens) == [];
    }
  }

  lemma StepDepth(w: Writer, t: Token)
    requires w.option.depth < DEPTHS
    ensures DepthStep(w.option.depth, Kind(t))
         == if IsEnd(t.valueType) && w.option.depth == 0 then None else Some(After(w, t).option.depth)
  {}

  /** A nested document from depth zero is written whole exactly when it nests to less than
      256 levels. */
  lemma DocumentIsWhole(options: Options, tokens: seq<Token>, f: CM.Forest)
    requires options.depth == 0 && Kinds(tokens) == CM.AllTokens(f)
    ensures AllWritten(Writer(options, true, true), tokens) <==> Height(f) < DEPTHS
  {
    WriterFollowsDepth(Writer(options, true, true), tokens);
    DepthOfForest(0, f);
  }
}
