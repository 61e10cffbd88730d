/** Bracket nesting in the tokenizer: the stack that accepts tokens, and the two places
    that find the end of a container by counting one bracket kind only. */
module TokenScopes {
  import opened Basics
  import opened ContainerMeta

  datatype Error = NoError | NeedMoreData | ScopeHasEnded | UnexpectedArrayEnd | UnexpectedObjectEnd

  // ---- open brackets ----

  /** The stack of open brackets (true for an array) after one more token; None once an
      end does not match. */
  function Open1(open: Option<seq<bool>>, t: Token): Option<seq<bool>> {
    match open
    case None => None
    case Some(s) =>
      match t
      case Scalar => Some(s)
      case Start(a) => Some(s + [a])
      case End(a) => if s != [] && s[|s| - 1] == a then Some(s[..|s| - 1]) else None
  }

  function OpenSince(tokens: seq<Token>, at: nat, pos: nat): Option<seq<bool>>
    requires at <= pos <= |tokens|
    decreases pos
  {
    if pos == at then Some([]) else Open1(OpenSince(tokens, at, pos - 1), tokens[pos - 1])
  }

  lemma {:induction false} NoneStays(tokens: seq<Token>, at: nat, i: nat, j: nat)
    requires at <= i <= j <= |tokens| && OpenSince(tokens, at, i).None?
    ensures OpenSince(tokens, at, j).None?
    decreases j
  {
    if i < j { NoneStays(tokens, at, i, j - 1); }
  }

  /** The end token at e closes the bracket of kind a that was open before `at`. */
  predicate IsMatchingEnd(tokens: seq<Token>, at: nat, a: bool, e: nat) {
    at <= e < |tokens| && tokens[e] == End(a) && OpenSince(tokens, at, e) == Some([])
  }

  lemma MatchingEndUnique(tokens: seq<Token>, at: nat, a: bool, e: nat, pos: nat)
    requires IsMatchingEnd(tokens, at, a, e) && at <= pos <= |tokens|
    ensures OpenSince(tokens, at, pos).Some? <==> pos <= e
  {
    if pos > e {
      assert OpenSince(tokens, at, e + 1).None?;
      NoneStays(tokens, at, e + 1, pos);
    } else if OpenSince(tokens, at, pos).None? {
      NoneStays(tokens, at, pos, e);
    }
  }

  // ---- what the stack means ----

  function Append(f: Forest, t: Tree): (r: Forest) {
    match f
    case Nil => Cons(t, Nil)
    case Cons(first, rest) => Cons(first, Append(rest, t))
  }

  lemma {:induction false} AppendTokens(f: Forest, t: Tree)
    ensures AllTokens(Append(f, t)) == AllTokens(f) + Tokens(t)
  {
    match f
    case Nil =>
      assert AllTokens(Append(f, t)) == Tokens(t) + AllTokens(Nil);
    case Cons(first, rest) =>
      AppendTokens(rest, t);
      assert Tokens(first) + (AllTokens(rest) + Tokens(t)) == Tokens(first) + AllTokens(rest) + Tokens(t);
  }

  /** Complete values between unmatched starts: frames[0], start, frames[1], start, ... */
  function Layout(frames: seq<Forest>, open: seq<bool>): seq<Token>
    requires |frames| == |open| + 1
  {
    if open == [] then AllTokens(frames[0])
    else Layout(frames[..|open|], open[..|open| - 1]) + [Start(open[|open| - 1])] + AllTokens(frames[|open|])
  }

  /** The frames after one more token. */
  function Frames1(frames: seq<Forest>, open: seq<bool>, t: Token): (r: seq<Forest>)
    requires |frames| == |open| + 1 && Open1(Some(open), t).Some?
    ensures |r| == |Open1(Some(open), t).value| + 1
  {
    var n := |open|;
    match t
    case Scalar => frames[n := Append(frames[n], Leaf)]
    case Start(_) => frames + [Nil]
    case End(a) => frames[..n - 1] + [Append(frames[n - 1], Node(a, frames[n]))]
  }

  lemma LayoutLast(frames: seq<Forest>, open: seq<bool>, a: bool, last: Forest)
    requires |frames| == |open| + 1
    ensures Layout(frames + [last], open + [a]) == Layout(frames, open) + [Start(a)] + AllTokens(last)
  {
    assert (frames + [last])[..|open| + 1] == frames && (open + [a])[..|open|] == open;
  }

  lemma FramesStep(frames: seq<Forest>, open: seq<bool>, t: Token)
    requires |frames| == |open| + 1 && Open1(Some(open), t).Some?
    ensures Layout(Frames1(frames, open, t), Open1(Some(open), t).value) == Layout(frames, open) + [t]
  {
    match t
    case Scalar => FramesScalar(frames, open);
    case Start(a) => FramesStart(frames, open, a);
    case End(a) =>
      assert open != [] && a == open[|open| - 1];
      FramesLast(frames, open);
  }

  lemma FramesLast(frames: seq<Forest>, open: seq<bool>)
    requires |frames| == |open| + 1 && open != []
    ensures var n, t := |open|, End(open[|open| - 1]);
      Layout(Frames1(frames, open, t), Open1(Some(open), t).value) == Layout(frames, open) + [t]
  {
    hide Layout, AllTokens, Tokens, Append;
    var n := |open|;
    FramesEnd(frames[..n - 1], frames[n - 1], frames[n], open[..n - 1], open[n - 1], frames, open);
  }

  lemma FramesScalar(frames: seq<Forest>, open: seq<bool>)
    requires |frames| == |open| + 1
    ensures Layout(Frames1(frames, open, Scalar), Open1(Some(open), Scalar).value) == Layout(frames, open) + [Scalar]
  {
    hide Layout, AllTokens, Tokens, Append;
    LayoutAppend(frames, open, Leaf);
    LeafTokens();
  }

  lemma FramesStart(frames: seq<Forest>, open: seq<bool>, a: bool)
    requires |frames| == |open| + 1
    ensures Layout(Frames1(frames, open, Start(a)), Open1(Some(open), Start(a)).value)
        == Layout(frames, open) + [Start(a)]
  {
    hide Layout, AllTokens, Tokens, Append;
    LayoutLast(frames, open, a, Nil);
    LeafTokens();
  }

  lemma LeafTokens()
    ensures Tokens(Leaf) == [Scalar] && AllTokens(Nil) == []
  {}

  lemma FramesEnd(outer: seq<Forest>, f: Forest, members: Forest, rest: seq<bool>, a: bool, frames: seq<Forest>,
                  open: seq<bool>)
    requires |outer| == |rest| && frames == outer + [f] + [members] && open == rest + [a]
    ensures Layout(outer + [Append(f, Node(a, members))], rest) == Layout(frames, open) + [End(a)]
  {
    var node := Node(a, members);
    assert Tokens(node) == [Start(a)] + AllTokens(members) + [End(a)];
    assert (outer + [f])[|rest|] == f;
    assert (outer + [f])[|rest| := Append(f, node)] == outer + [Append(f, node)];
    hide *;
    LayoutAppend(outer + [f], rest, node);
    LayoutLast(outer + [f], rest, a, members);
    Reassociate(Layout(outer + [f], rest), [Start(a)], AllTokens(members), [End(a)]);
  }

  lemma Reassociate<T>(a: seq<T>, b: seq<T>, c: seq<T>, d: seq<T>)
    ensures a + (b + c + d) == a + b + c + d
  {}

  lemma LayoutAppend(frames: seq<Forest>, open: seq<bool>, t: Tree)
    requires |frames| == |open| + 1
    ensures Layout(frames[|open| := Append(frames[|open|], t)], open) == Layout(frames, open) + Tokens(t)
  {
    var n := |open|;
    AppendTokens(frames[n], t);
    if n > 0 {
      assert frames[n := Append(frames[n], t)][..n] == frames[..n];
      var l, body := Layout(frames[..n], open[..n - 1]) + [Start(open[n - 1])], AllTokens(frames[n]);
      assert l + (body + Tokens(t)) == l + body + Tokens(t);
    }
  }

  function FramesOf(tokens: seq<Token>, at: nat, pos: nat): (r: seq<Forest>)
    requires at <= pos <= |tokens| && OpenSince(tokens, at, pos).Some?
    ensures |r| == |OpenSince(tokens, at, pos).value| + 1
    decreases pos
  {
    if pos == at then [Nil]
    else Frames1(FramesOf(tokens, at, pos - 1), OpenSince(tokens, at, pos - 1).value, tokens[pos - 1])
  }

  /** The stack holds exactly the unmatched starts: what was accepted is complete values
      with those starts between them. */
  lemma {:induction false} StackIsUnmatchedStarts(tokens: seq<Token>, at: nat, pos: nat)
    requires at <= pos <= |tokens| && OpenSince(tokens, at, pos).Some?
    ensures tokens[at..pos] == Layout(FramesOf(tokens, at, pos), OpenSince(tokens, at, pos).value)
    decreases pos
  {
    hide *;
    FramesOfNext(tokens, at, pos);
    if at < pos {
      StackIsUnmatchedStarts(tokens, at, pos - 1);
      assert tokens[at..pos] == tokens[at..pos - 1] + [tokens[pos - 1]];
      FramesStep(FramesOf(tokens, at, pos - 1), OpenSince(tokens, at, pos - 1).value, tokens[pos - 1]);
    } else {
      assert tokens[at..pos] == [];
    }
  }

  lemma FramesOfNext(tokens: seq<Token>, at: nat, pos: nat)
    requires at <= pos <= |tokens| && OpenSince(tokens, at, pos).Some?
    ensures pos == at ==> Layout(FramesOf(tokens, at, pos), OpenSince(tokens, at, pos).value) == []
    ensures pos > at ==> OpenSince(tokens, at, pos - 1).Some?
    ensures pos > at ==> OpenSince(tokens, at, pos) == Open1(OpenSince(tokens, at, pos - 1), tokens[pos - 1])
    ensures pos > at ==>
      FramesOf(tokens, at, pos) == Frames1(FramesOf(tokens, at, pos - 1), OpenSince(tokens, at, pos - 1).value,
                                           tokens[pos - 1])
  {
    LeafTokens();
  }

  /** Complete values leave the stack as it was. */
  lemma {:induction false} ThroughTree(tokens: seq<Token>, at: nat, i: nat, t: Tree)
    requires at <= i <= i + |Tokens(t)| <= |tokens| && Holds(tokens, i, Tokens(t)) && OpenSince(tokens, at, i).Some?
    ensures OpenSince(tokens, at, i + |Tokens(t)|) == OpenSince(tokens, at, i)
    decreases t
  {
    hide *;
    match t
    case Leaf => ThroughLeaf(tokens, at, i);
    case Node(a, members) =>
      NodeParts(tokens, i, a, members);
      OpenNext(tokens, at, i);
      PushPop(OpenSince(tokens, at, i).value, a);
      ThroughForest(tokens, at, i + 1, members);
      OpenNext(tokens, at, i + 1 + |AllTokens(members)|);
  }

  lemma OpenNext(tokens: seq<Token>, at: nat, i: nat)
    requires at <= i < |tokens|
    ensures OpenSince(tokens, at, i + 1) == Open1(OpenSince(tokens, at, i), tokens[i])
  {}

  lemma PushPop(u: seq<bool>, a: bool)
    ensures Open1(Some(u), Start(a)).Some?
    ensures Open1(Open1(Some(u), Start(a)), End(a)) == Some(u)
  {
    assert (u + [a])[..|u|] == u;
  }

  lemma ThroughLeaf(tokens: seq<Token>, at: nat, i: nat)
    requires at <= i < |tokens| && Holds(tokens, i, Tokens(Leaf)) && OpenSince(tokens, at, i).Some?
    ensures |Tokens(Leaf)| == 1 && OpenSince(tokens, at, i + 1) == OpenSince(tokens, at, i)
  {
    assert tokens[i] == tokens[i..i + 1][0];
  }

  lemma {:induction false} ThroughForest(tokens: seq<Token>, at: nat, i: nat, f: Forest)
    requires at <= i <= i + |AllTokens(f)| <= |tokens| && Holds(tokens, i, AllTokens(f))
        && OpenSince(tokens, at, i).Some?
    ensures OpenSince(tokens, at, i + |AllTokens(f)|) == OpenSince(tokens, at, i)
    decreases f
  {
    hide *;
    match f
    case Nil => LeafTokens();
    case Cons(first, rest) =>
      ForestParts(tokens, i, first, rest);
      ThroughTree(tokens, at, i, first);
      ThroughForest(tokens, at, i + |Tokens(first)|, rest);
  }

  /** The stack is back where it was exactly after complete values. */
  lemma ClosedIffComplete(tokens: seq<Token>, at: nat, pos: nat)
    requires at <= pos <= |tokens|
    ensures OpenSince(tokens, at, pos) == Some([]) <==> exists f :: tokens[at..pos] == AllTokens(f)
  {
    if OpenSince(tokens, at, pos) == Some([]) {
      StackIsUnmatchedStarts(tokens, at, pos);
      assert tokens[at..pos] == AllTokens(FramesOf(tokens, at, pos)[0]);
    }
    if f :| tokens[at..pos] == AllTokens(f) {
      ThroughForest(tokens, at, at, f);
    }
  }

  // ---- the tokenizer ----

  /** A scope's first token, and its depth: 16 bits wide. */
  datatype ScopeCounter = ScopeCounter(first: Token, depth: nat)

  const DEPTHS: nat := 0x1_0000

  /** handleType: the counter of a container counts its own bracket kind only. */
  function HandleType(c: ScopeCounter, t: Token): (r: ScopeCounter)
    requires c.depth < DEPTHS
    ensures r.depth < DEPTHS && r.first == c.first
  {
    match c.first
    case Start(a) =>
      if t == Start(a) then c.(depth := (c.depth + 1) % DEPTHS)
      else if t == End(a) then c.(depth := (c.depth + DEPTHS - 1) % DEPTHS)
      else c
    case _ => c.(depth := (c.depth + DEPTHS - 1) % DEPTHS)
  }

  /** An end of its own kind, or any token of a scope that is no container, takes one off the depth. */
  lemma CountsDown(c: ScopeCounter, t: Token)
    requires c.depth < DEPTHS && (!c.first.Start? || t == End(c.first.isArray))
    ensures (HandleType(c, t).depth + 1) % DEPTHS == c.depth
  {}

  /** A scope's counter before token i, having been c before token `at`. */
  function CounterAt(c: ScopeCounter, tokens: seq<Token>, at: nat, i: nat): (r: ScopeCounter)
    requires c.depth < DEPTHS && at <= i <= |tokens|
    ensures r.depth < DEPTHS
    decreases i
  {
    if i == at then c else HandleType(CounterAt(c, tokens, at, i - 1), tokens[i - 1])
  }

  /** The innermost scope, if there is one, is not over before token i for any i up to e. */
  ghost predicate ScopeLasts(scopes: seq<ScopeCounter>, tokens: seq<Token>, at: nat, e: nat)
    requires at <= e < |tokens| && forall k :: 0 <= k < |scopes| ==> scopes[k].depth < DEPTHS
  {
    scopes != [] ==>
      var c := scopes[|scopes| - 1];
      forall i :: at <= i <= e ==> CounterAt(c, tokens, at, i).depth != 0
  }

  /** The scopes once the innermost has counted a token. */
  function Counted(counters: seq<ScopeCounter>, t: Token): seq<ScopeCounter>
    requires forall k :: 0 <= k < |counters| ==> counters[k].depth < DEPTHS
  {
    if counters == [] then []
    else counters[|counters| - 1 := HandleType(counters[|counters| - 1], t)]
  }

  /** Since token `at`, where the scopes were those given, the innermost was never over
      before a token, and has counted each of them. */
  ghost predicate ScopesFollow(scopes: seq<ScopeCounter>, counters: seq<ScopeCounter>, tokens: seq<Token>, at: nat,
                               pos: nat)
    requires at <= pos <= |tokens|
  {
    && (forall k :: 0 <= k < |scopes| ==> scopes[k].depth < DEPTHS)
    && |counters| == |scopes|
    && (scopes != [] ==>
         var c := scopes[|scopes| - 1];
         && counters[|scopes| - 1] == CounterAt(c, tokens, at, pos)
         && forall i :: at <= i < pos ==> CounterAt(c, tokens, at, i).depth != 0)
  }

  predicate InnermostOver(counters: seq<ScopeCounter>) { counters != [] && counters[|counters| - 1].depth == 0 }

  lemma ScopesGoOn(scopes: seq<ScopeCounter>, counters: seq<ScopeCounter>, tokens: seq<Token>, at: nat, pos: nat)
    requires at <= pos < |tokens| && forall k :: 0 <= k < |counters| ==> counters[k].depth < DEPTHS
    requires ScopesFollow(scopes, counters, tokens, at, pos) && !InnermostOver(counters)
    ensures ScopesFollow(scopes, Counted(counters, tokens[pos]), tokens, at, pos + 1)
    ensures forall k :: 0 <= k < |scopes| ==> scopes[k].depth < DEPTHS
    ensures ScopeLasts(scopes, tokens, at, pos)
  {}

  /** A scope that is over ends the search in front of any matching end. */
  lemma ScopeIsOver(scopes: seq<ScopeCounter>, counters: seq<ScopeCounter>, tokens: seq<Token>, at: nat, pos: nat,
                    a: bool, open: seq<bool>)
    requires at <= pos <= |tokens| && ScopesFollow(scopes, counters, tokens, at, pos) && InnermostOver(counters)
    requires OpenSince(tokens, at, pos) == Some(open)
    ensures forall k :: 0 <= k < |scopes| ==> scopes[k].depth < DEPTHS
    ensures !exists e :: IsMatchingEnd(tokens, at, a, e) && ScopeLasts(scopes, tokens, at, e)
  {
    forall e | IsMatchingEnd(tokens, at, a, e) && ScopeLasts(scopes, tokens, at, e) ensures false {
      MatchingEndUnique(tokens, at, a, e, pos);
    }
  }

  class Tokenizer {
    const input: seq<Token>               // the tokens that the characters spell
    var pos: nat
    var containerStack: seq<bool>
    var scopeCounter: seq<ScopeCounter>

    constructor (input: seq<Token>)
      ensures this.input == input && pos == 0 && containerStack == [] && scopeCounter == [] && Valid()
    {
      this.input := input;
      pos, containerStack, scopeCounter := 0, [], [];
    }

    ghost predicate Valid()
      reads this
    {
      pos <= |input| && forall i :: 0 <= i < |scopeCounter| ==> scopeCounter[i].depth < DEPTHS
    }

    function Handled(t: Token): seq<ScopeCounter>
      requires Valid()
      reads this
    {
      Counted(scopeCounter, t)
    }

    /** nextToken: a token is accepted when it fits the stack. */
    method NextToken() returns (error: Error, token: Token)
      requires Valid()
      modifies this
      ensures Valid()
      ensures var ended := InnermostOver(old(scopeCounter));
        && (error == ScopeHasEnded <==> ended)
        && (error == NeedMoreData <==> !ended && old(pos) == |input|)
        && (error.ScopeHasEnded? || error.NeedMoreData? ==> unchanged(this))
      ensures error == NoError ==> old(pos) < |input| && pos == old(pos) + 1 && token == input[old(pos)]
      ensures error == NoError ==> Open1(Some(old(containerStack)), token) == Some(containerStack)
      ensures error == NoError ==> scopeCounter == old(Handled(input[pos]))
      ensures error.UnexpectedArrayEnd? || error.UnexpectedObjectEnd? ==>
        && old(pos) < |input| && pos == old(pos) + 1 && token == input[old(pos)]
        && Open1(Some(old(containerStack)), token) == None
        && token == End(error.UnexpectedArrayEnd?)
        && containerStack == old(containerStack) && scopeCounter == old(scopeCounter)
    {
      token := Scalar;
      if scopeCounter != [] && scopeCounter[|scopeCounter| - 1].depth == 0 { return ScopeHasEnded, token; }
      if pos == |input| { return NeedMoreData, token; }
      token := input[pos];
      ghost var handled := Handled(token);
      pos := pos + 1;
      match token {
      case Start(a) => containerStack := containerStack + [a];
      case End(a) =>
        if containerStack == [] || containerStack[|containerStack| - 1] != a {
          return if a then UnexpectedArrayEnd else UnexpectedObjectEnd, token;
        }
        containerStack := containerStack[..|containerStack| - 1];
      case Scalar =>
      }
      if scopeCounter != [] {
        var k := |scopeCounter| - 1;
        scopeCounter := scopeCounter[k := HandleType(scopeCounter[k], token)];
      }
      error := NoError;
    }

    /** skipArrayOrObject, called when `first` has just been read: counting only its own
        bracket kind, it stops exactly at the matching end. `overflow` is whether the count,
        an int in the source, overflows on the way. */
    method SkipArrayOrObject(first: Token) returns (ok: bool, overflow: bool)
      requires Valid()
      requires first.Start? ==> containerStack != [] && containerStack[|containerStack| - 1] == first.isArray
      modifies this
      ensures Valid()
      ensures !first.Start? ==> !ok && unchanged(this)
      ensures overflow <==> first.Start? && pos >= old(pos) && TooDeep(input, old(pos), pos, first.isArray)
      ensures ok ==> pos > old(pos) && IsMatchingEnd(input, old(pos), first.isArray, pos - 1)
      ensures ok ==> containerStack == old(containerStack[..|containerStack| - 1])
      ensures first.Start? ==>
        (ok <==> exists e :: IsMatchingEnd(input, old(pos), first.isArray, e)
                             && ScopeLasts(old(scopeCounter), input, old(pos), e))
    {
      if !first.Start? { return false, false; }
      overflow := false;
      var startType, endType := first, End(first.isArray);
      var depth := 1;
      ghost var at, outer, open: seq<bool> := pos, containerStack[..|containerStack| - 1], [];
      ghost var scopes := scopeCounter;
      SkipStarts(input, at, first.isArray);
      hide TooDeep, DepthAt, OpenSince, Open1, IsMatchingEnd, ScopesFollow, ScopeLasts, Counted;
      while depth > 0
        invariant Valid() && at <= pos && depth == DepthAt(input, at, pos, first.isArray)
        invariant ScopesFollow(scopes, scopeCounter, input, at, pos)
        invariant overflow <==> TooDeep(input, at, pos, first.isArray)
        invariant depth > 0 ==>
          OpenSince(input, at, pos) == Some(open) && containerStack == outer + [first.isArray] + open
        invariant depth == 0 ==> pos > at && IsMatchingEnd(input, at, first.isArray, pos - 1)
        invariant depth == 0 ==> containerStack == outer && ScopeLasts(scopes, input, at, pos - 1)
        decreases |input| - pos
      {
        ghost var here, counters := pos, scopeCounter;
        var error, token := NextToken();
        if error != NoError {
          if error == ScopeHasEnded {
            ScopeIsOver(scopes, scopeCounter, input, at, pos, first.isArray, open);
          } else {
            NoMatchingEnd(input, at, first.isArray, here, outer, open);
          }
          if pos > here { RejectedNotDeep(input, at, here, first.isArray, outer, open); }
          return false, overflow;
        }
        ScopesGoOn(scopes, counters, input, at, here);
        open := SkipStep(input, at, here, first.isArray, outer, open, containerStack);
        if token == startType {
          depth := depth + 1;
        } else if token == endType {
          depth := depth - 1;
        }
        overflow := overflow || depth > INT_MAX;
      }
      ok := true;
    }

    /** pushScope: a container starts at depth one, anything else is over at once. */
    method PushScope(first: Token)
      requires Valid()
      modifies this`scopeCounter
      ensures Valid()
      ensures scopeCounter == old(scopeCounter) + [ScopeCounter(first, if first.Start? then 1 else 0)]
    {
      var c := ScopeCounter(first, 1);
      if !first.Start? { c := c.(depth := c.depth - 1); }
      scopeCounter := scopeCounter + [c];
    }

    method PopScope()
      requires Valid() && scopeCounter != [] && scopeCounter[|scopeCounter| - 1].depth == 0
      modifies this`scopeCounter
      ensures Valid() && scopeCounter == old(scopeCounter[..|scopeCounter| - 1])
    {
      scopeCounter := scopeCounter[..|scopeCounter| - 1];
    }

    function Current(): ScopeCounter
      requires scopeCounter != []
      reads this
    {
      scopeCounter[|scopeCounter| - 1]
    }

    /** goToEndOfScope, inside the scope of a bracket of kind a that opened before `at` and
        is closed at e. It stops right behind e exactly when the depth in that kind stays
        below 2^16; otherwise it stops before, as soon as the 16-bit depth wraps to zero. */
    method GoToEndOfScope(a: bool, ghost at: nat, ghost outer: seq<bool>, ghost open: seq<bool>, ghost e: nat)
      returns (error: Error)
      requires Valid() && scopeCounter != [] && Current().first == Start(a)
      requires at <= pos && IsMatchingEnd(input, at, a, e) && OpenSince(input, at, pos) == Some(open)
      requires containerStack == outer + [a] + open && Current().depth == DepthAt(input, at, pos, a) < DEPTHS
      modifies this
      ensures Valid() && error == NoError && scopeCounter != [] && Current().depth == 0
      ensures pos == e + 1 <==> StaysBelow(input, at, old(pos), e, a, DEPTHS)
      ensures pos == e + 1 ==> containerStack == outer
      ensures pos != e + 1 ==> at <= pos <= e && DepthAt(input, at, pos, a) == DEPTHS
    {
      error := NoError;
      ghost var start, u, inside := pos, open, true;
      MatchingEndUnique(input, at, a, e, pos);
      DepthIsPositive(input, at, pos, a);
      assert InScope(a, at, e, outer, u);
      assert StaysBelow(input, at, start, pos - 1, a, DEPTHS);
      hide *;
      while Current().depth > 0 && error == NoError
        invariant Valid() && error == NoError && scopeCounter != [] && at <= start <= pos <= |input|
        invariant StaysBelow(input, at, start, pos - 1, a, DEPTHS)
        invariant inside ==> InScope(a, at, e, outer, u)
        invariant !inside ==> pos == e + 1 && Current().depth == 0 && containerStack == outer
        decreases |input| - pos
      {
        ghost var here := pos;
        error, inside, u := ScopeRound(a, at, e, outer, u);
        StaysBelowNext(input, at, start, here, a);
      }
      if inside { ScopeLeftEarly(a, at, start, e, outer, u); }
    }

    /** Inside the scope, with u open since `at`: the counter follows the true depth. */
    ghost predicate InScope(a: bool, at: nat, e: nat, outer: seq<bool>, u: seq<bool>)
      reads this
    {
      && Valid() && scopeCounter != [] && Current().first == Start(a)
      && at <= pos <= e && IsMatchingEnd(input, at, a, e) && OpenSince(input, at, pos) == Some(u)
      && containerStack == outer + [a] + u && Counts(Current().depth, DepthAt(input, at, pos, a))
    }

    /** One token of the loop. */
    method ScopeRound(a: bool, ghost at: nat, ghost e: nat, ghost outer: seq<bool>, ghost u: seq<bool>)
      returns (error: Error, ghost inside: bool, ghost u': seq<bool>)
      requires InScope(a, at, e, outer, u) && scopeCounter != [] && Current().depth > 0
      modifies this
      ensures Valid() && error == NoError && scopeCounter != [] && pos == old(pos) + 1 <= |input|
      ensures at <= old(pos) <= |input| && DepthAt(input, at, old(pos), a) < DEPTHS
      ensures inside ==> InScope(a, at, e, outer, u')
      ensures !inside ==> pos == e + 1 && Current().depth == 0 && containerStack == outer
    {
      ScopeStep(input, at, a, pos, e, outer, u, Current().depth);
      hide DepthAt, HandleType, CountKind, Open1, OpenSince, Counts;
      u' := u;
      var token;
      error, token := NextToken();
      inside := !(u == [] && token.End?);
      if inside { u' := Open1(Some(u), token).value; }
    }

    lemma ScopeLeftEarly(a: bool, at: nat, start: nat, e: nat, outer: seq<bool>, u: seq<bool>)
      requires InScope(a, at, e, outer, u) && at <= start <= pos && scopeCounter != [] && Current().depth == 0
      ensures at <= pos <= e <= |input| && DepthAt(input, at, pos, a) == DEPTHS
      ensures !StaysBelow(input, at, start, e, a, DEPTHS)
    {
      WrapsBefore(input, at, start, pos, e, a);
    }
  }

  lemma StaysBelowNext(tokens: seq<Token>, at: nat, start: nat, here: nat, a: bool)
    requires at <= start <= here <= |tokens| && StaysBelow(tokens, at, start, here - 1, a, DEPTHS)
    requires DepthAt(tokens, at, here, a) < DEPTHS
    ensures StaysBelow(tokens, at, start, here, a, DEPTHS)
  {}

  lemma WrapsBefore(tokens: seq<Token>, at: nat, start: nat, pos: nat, e: nat, a: bool)
    requires at <= start <= pos <= e <= |tokens| && Counts(0, DepthAt(tokens, at, pos, a))
    ensures DepthAt(tokens, at, pos, a) == DEPTHS && !StaysBelow(tokens, at, start, e, a, DEPTHS)
  {}

  /** The 16-bit counter of a true depth, up to the first wrap. */
  predicate Counts(counter: nat, depth: nat) {
    0 < depth <= DEPTHS && counter == if depth == DEPTHS then 0 else depth
  }

  lemma DepthIsPositive(tokens: seq<Token>, at: nat, i: nat, a: bool)
    requires at <= i <= |tokens| && OpenSince(tokens, at, i).Some?
    ensures DepthAt(tokens, at, i, a) > 0
  {}

  /** One token of a scope that is still open. */
  lemma ScopeStep(tokens: seq<Token>, at: nat, a: bool, here: nat, e: nat, outer: seq<bool>, u: seq<bool>, counter: nat)
    requires at <= here <= e && IsMatchingEnd(tokens, at, a, e) && OpenSince(tokens, at, here) == Some(u)
    requires counter > 0 && Counts(counter, DepthAt(tokens, at, here, a))
    ensures here < |tokens| && DepthAt(tokens, at, here, a) < DEPTHS
    ensures HandleType(ScopeCounter(Start(a), counter), tokens[here]).first == Start(a)
    ensures Open1(Some(outer + [a] + u), tokens[here]).Some?
    ensures u == [] && tokens[here].End? ==>
      here == e && HandleType(ScopeCounter(Start(a), counter), tokens[here]).depth == 0
    ensures u == [] && tokens[here].End? ==> Open1(Some(outer + [a] + u), tokens[here]).value == outer
    ensures !(u == [] && tokens[here].End?) ==>
      here < e && Open1(Some(u), tokens[here]).Some? && OpenSince(tokens, at, here + 1) == Open1(Some(u), tokens[here])
    ensures !(u == [] && tokens[here].End?) ==>
      Open1(Some(outer + [a] + u), tokens[here]).value == outer + [a] + Open1(Some(u), tokens[here]).value
    ensures !(u == [] && tokens[here].End?) ==>
      Counts(HandleType(ScopeCounter(Start(a), counter), tokens[here]).depth, DepthAt(tokens, at, here + 1, a))
  {
    var t := tokens[here];
    MatchingEndUnique(tokens, at, a, e, here + 1);
    if Open1(Some(outer + [a] + u), t).None? { NoMatchingEnd(tokens, at, a, here, outer, u); }
    InnerStep(outer, a, u, t);
  }

  /** How many of the open brackets are of kind a. */
  function CountKind(open: seq<bool>, a: bool): nat {
    if open == [] then 0 else CountKind(open[..|open| - 1], a) + if open[|open| - 1] == a then 1 else 0
  }

  /** Up to token k, after a bracket of kind a was opened in front of token `at`, more brackets
      of the kind were open at some time than an int can count. */
  ghost predicate TooDeep(tokens: seq<Token>, at: nat, k: nat, a: bool)
    requires at <= k <= |tokens|
  {
    exists j :: at <= j <= k && DepthAt(tokens, at, j, a) > INT_MAX
  }

  lemma SkipStarts(tokens: seq<Token>, at: nat, a: bool)
    requires at <= |tokens|
    ensures OpenSince(tokens, at, at) == Some([]) && DepthAt(tokens, at, at, a) == 1 && !TooDeep(tokens, at, at, a)
  {
    assert DepthAt(tokens, at, at, a) == 1;
  }

  lemma DeeperNext(tokens: seq<Token>, at: nat, k: nat, a: bool)
    requires at <= k < |tokens|
    ensures TooDeep(tokens, at, k + 1, a) <==> TooDeep(tokens, at, k, a) || DepthAt(tokens, at, k + 1, a) > INT_MAX
  {
    hide DepthAt;
  }

  /** One accepted token of the search: the depth follows it, and is zero exactly behind the
      matching end. */
  lemma SkipStep(tokens: seq<Token>, at: nat, k: nat, a: bool, outer: seq<bool>, open: seq<bool>, stack: seq<bool>)
    returns (inner: seq<bool>)
    requires at <= k < |tokens| && OpenSince(tokens, at, k) == Some(open)
    requires Open1(Some(outer + [a] + open), tokens[k]) == Some(stack)
    ensures DepthAt(tokens, at, k + 1, a) == DepthAt(tokens, at, k, a) + KindStep(tokens[k], a)
    ensures TooDeep(tokens, at, k + 1, a) <==> TooDeep(tokens, at, k, a) || DepthAt(tokens, at, k + 1, a) > INT_MAX
    ensures DepthAt(tokens, at, k + 1, a) == 0 ==> IsMatchingEnd(tokens, at, a, k) && stack == outer
    ensures DepthAt(tokens, at, k + 1, a) > 0 ==>
      OpenSince(tokens, at, k + 1) == Some(inner) && stack == outer + [a] + inner
  {
    InnerStep(outer, a, open, tokens[k]);
    DeeperNext(tokens, at, k, a);
    hide TooDeep;
    if open == [] && tokens[k].End? {
      inner := [];
      assert CountKind(open, a) == 0;
    } else {
      inner := Open1(Some(open), tokens[k]).value;
    }
    hide CountKind;
  }

  /** A rejected token adds no depth. */
  lemma RejectedNotDeep(tokens: seq<Token>, at: nat, k: nat, a: bool, outer: seq<bool>, open: seq<bool>)
    requires at <= k < |tokens| && OpenSince(tokens, at, k) == Some(open)
    requires Open1(Some(outer + [a] + open), tokens[k]).None?
    ensures TooDeep(tokens, at, k + 1, a) <==> TooDeep(tokens, at, k, a)
  {
    TopInside(outer, a, open);
    DeeperNext(tokens, at, k, a);
    hide TooDeep;
  }

  /** One accepted token inside a bracket of kind a: the count of that kind follows it, and
      reaches zero only when the bracket itself closes. */
  lemma InnerStep(outer: seq<bool>, a: bool, open: seq<bool>, t: Token)
    requires Open1(Some(outer + [a] + open), t).Some?
    ensures open == [] && t.End? ==> t == End(a) && Open1(Some(outer + [a] + open), t) == Some(outer)
    ensures !(open == [] && t.End?) ==> Open1(Some(open), t).Some?
    ensures !(open == [] && t.End?) ==>
      Open1(Some(outer + [a] + open), t).value == outer + [a] + Open1(Some(open), t).value
    ensures !(open == [] && t.End?) ==> CountKind(Open1(Some(open), t).value, a) == CountKind(open, a) + KindStep(t, a)
  {
    hide CountKind;
    match t
    case Scalar =>
    case Start(b) =>
      CountPushed(open, b, a);
      Regroup(outer, [a], open, [b]);
    case End(b) =>
      TopInside(outer, a, open);
      if open != [] { CountPopped(open, a); }
  }

  lemma Regroup<T>(a: seq<T>, b: seq<T>, c: seq<T>, d: seq<T>)
    ensures (a + b + c) + d == a + b + (c + d)
  {}

  lemma CountPopped(open: seq<bool>, a: bool)
    requires open != []
    ensures CountKind(open[..|open| - 1], a) == CountKind(open, a) - if open[|open| - 1] == a then 1 else 0
  {}

  lemma CountPushed(open: seq<bool>, b: bool, a: bool)
    ensures CountKind(open + [b], a) == CountKind(open, a) + if b == a then 1 else 0
  {
    assert (open + [b])[..|open|] == open;
  }

  /** The innermost open bracket is the last of the inner ones, or the outer bracket itself. */
  lemma TopInside(outer: seq<bool>, a: bool, open: seq<bool>)
    ensures var s, n := outer + [a] + open, |open|;
      && s[|s| - 1] == (if n == 0 then a else open[n - 1])
      && s[..|s| - 1] == (if n == 0 then outer else outer + [a] + open[..n - 1])
  {}

  /** The depth in brackets of kind a, the one that opened before `at` included. */
  function DepthAt(tokens: seq<Token>, at: nat, i: nat, a: bool): nat
    requires at <= i <= |tokens|
  {
    match OpenSince(tokens, at, i)
    case None => 0
    case Some(open) => 1 + CountKind(open, a)
  }

  predicate StaysBelow(tokens: seq<Token>, at: nat, from: nat, last: int, a: bool, limit: nat)
    requires at <= from && last <= |tokens|
  {
    forall i :: from <= i <= last ==> DepthAt(tokens, at, i, a) < limit
  }

  /** What a token adds to the count of brackets of kind a. */
  function KindStep(t: Token, a: bool): int {
    if t == Start(a) then 1 else if t == End(a) then -1 else 0
  }

  lemma NoMatchingEnd(tokens: seq<Token>, at: nat, a: bool, here: nat, outer: seq<bool>, open: seq<bool>)
    requires at <= here <= |tokens| && OpenSince(tokens, at, here) == Some(open)
    requires here < |tokens| ==> Open1(Some(outer + [a] + open), tokens[here]).None?
    ensures !exists e :: IsMatchingEnd(tokens, at, a, e)
  {
    forall e | IsMatchingEnd(tokens, at, a, e) ensures false {
      MatchingEndUnique(tokens, at, a, e, here);
      MatchingEndUnique(tokens, at, a, e, here + 1);
      TopInside(outer, a, open);
    }
  }

  // ---- depth of a scope in terms of its values ----

  /** How deep brackets of kind a nest in a value. */
  function NestTree(t: Tree, a: bool): nat {
    match t
    case Leaf => 0
    case Node(b, members) => (if a == b then 1 else 0) + Nest(members, a)
  }

  function Nest(f: Forest, a: bool): nat {
    match f
    case Nil => 0
    case Cons(first, rest) => Most(NestTree(first, a), Nest(rest, a))
  }

  /** The depth over the tokens of a forest peaks at its nesting. */
  lemma {:induction false} PeakTree(tokens: seq<Token>, at: nat, i: nat, t: Tree, a: bool, limit: nat)
    requires at <= i <= i + |Tokens(t)| <= |tokens| && Holds(tokens, i, Tokens(t)) && OpenSince(tokens, at, i).Some?
    ensures StaysBelow(tokens, at, i, i + |Tokens(t)|, a, limit)
       <==> DepthAt(tokens, at, i, a) + NestTree(t, a) < limit
    decreases t
  {
    hide *;
    var n := i + |Tokens(t)|;
    ThroughTree(tokens, at, i, t);
    SameDepth(tokens, at, i, n, a);
    BelowEnds(tokens, at, i, n, a, limit);
    NestOfTree(t, a);
    match t
    case Leaf => LeafInside(tokens, at, i, a, limit);
    case Node(b, members) =>
      NodeParts(tokens, i, b, members);
      DepthInside(tokens, at, i, b, a);
      PeakForest(tokens, at, i + 1, members, a, limit);
  }

  lemma NestOfTree(t: Tree, a: bool)
    ensures t.Leaf? ==> NestTree(t, a) == 0
    ensures t.Node? ==> NestTree(t, a) == (if a == t.isArray then 1 else 0) + Nest(t.members, a)
  {}

  lemma LeafInside(tokens: seq<Token>, at: nat, i: nat, a: bool, limit: nat)
    requires at <= i < |tokens|
    ensures |Tokens(Leaf)| == 1 && StaysBelow(tokens, at, i + 1, i, a, limit)
  {}

  lemma BelowEnds(tokens: seq<Token>, at: nat, i: nat, n: nat, a: bool, limit: nat)
    requires at <= i < n <= |tokens|
    ensures StaysBelow(tokens, at, i, n, a, limit)
       <==> (DepthAt(tokens, at, i, a) < limit && StaysBelow(tokens, at, i + 1, n - 1, a, limit)
             && DepthAt(tokens, at, n, a) < limit)
  {}

  lemma DepthInside(tokens: seq<Token>, at: nat, i: nat, b: bool, a: bool)
    requires at <= i < |tokens| && tokens[i] == Start(b) && OpenSince(tokens, at, i).Some?
    ensures OpenSince(tokens, at, i + 1).Some?
    ensures DepthAt(tokens, at, i + 1, a) == DepthAt(tokens, at, i, a) + if a == b then 1 else 0
  {
    var u := OpenSince(tokens, at, i).value;
    assert (u + [b])[..|u|] == u;
  }

  lemma {:induction false} PeakForest(tokens: seq<Token>, at: nat, i: nat, f: Forest, a: bool, limit: nat)
    requires at <= i <= i + |AllTokens(f)| <= |tokens| && Holds(tokens, i, AllTokens(f))
        && OpenSince(tokens, at, i).Some?
    ensures StaysBelow(tokens, at, i, i + |AllTokens(f)|, a, limit)
       <==> DepthAt(tokens, at, i, a) + Nest(f, a) < limit
    decreases f
  {
    hide *;
    match f
    case Nil => PeakNil(tokens, at, i, a, limit);
    case Cons(first, rest) =>
      ForestParts(tokens, i, first, rest);
      var m := i + |Tokens(first)|;
      ThroughTree(tokens, at, i, first);
      SameDepth(tokens, at, i, m, a);
      PeakTree(tokens, at, i, first, a, limit);
      PeakForest(tokens, at, m, rest, a, limit);
      BelowJoin(tokens, at, i, m, m + |AllTokens(rest)|, a, limit);
      NestOfCons(first, rest, a);
  }

  lemma PeakNil(tokens: seq<Token>, at: nat, i: nat, a: bool, limit: nat)
    requires at <= i <= |tokens|
    ensures |AllTokens(Nil)| == 0 && Nest(Nil, a) == 0
    ensures StaysBelow(tokens, at, i, i, a, limit) <==> DepthAt(tokens, at, i, a) < limit
  {}

  lemma NestOfCons(first: Tree, rest: Forest, a: bool)
    ensures Nest(Cons(first, rest), a) == if NestTree(first, a) < Nest(rest, a) then Nest(rest, a)
        else NestTree(first, a)
  {}

  lemma SameDepth(tokens: seq<Token>, at: nat, i: nat, j: nat, a: bool)
    requires at <= i <= |tokens| && at <= j <= |tokens| && OpenSince(tokens, at, i) == OpenSince(tokens, at, j)
    ensures DepthAt(tokens, at, i, a) == DepthAt(tokens, at, j, a)
  {}

  lemma BelowJoin(tokens: seq<Token>, at: nat, i: nat, m: nat, n: nat, a: bool, limit: nat)
    requires at <= i <= m <= n <= |tokens|
    ensures StaysBelow(tokens, at, i, n, a, limit)
       <==> StaysBelow(tokens, at, i, m, a, limit) && StaysBelow(tokens, at, m, n, a, limit)
  {}

  /** The 16-bit depth is enough for a scope exactly when its members nest fewer than
      65535 brackets of its own kind. */
  lemma ScopeDepthSuffices(tokens: seq<Token>, at: nat, members: Forest, a: bool)
    requires Holds(tokens, at, AllTokens(members) + [End(a)])
    ensures var e := at + |AllTokens(members)|;
      IsMatchingEnd(tokens, at, a, e)
      && (StaysBelow(tokens, at, at, e, a, DEPTHS) <==> Nest(members, a) < DEPTHS - 1)
  {
    HoldsParts(tokens, at, AllTokens(members), [End(a)]);
    HoldsParts(tokens, at + |AllTokens(members)|, [End(a)], []);
    ThroughForest(tokens, at, at, members);
    PeakForest(tokens, at, at, members, a, DEPTHS);
  }
}
