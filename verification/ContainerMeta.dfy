/** Container metadata of a token stream: one pass with a stack of open containers gives,
    for each container, what a recursive reading of the nested values would. */
module ContainerMeta {

  datatype Token = Scalar | Start(isArray: bool) | End(isArray: bool)

  /** A parsed value: a scalar, or a container with its members. */
  datatype Tree = Leaf | Node(isArray: bool, members: Forest)
  datatype Forest = Nil | Cons(first: Tree, rest: Forest)

  datatype JsonMeta = JsonMeta(position: nat, size: nat, skip: nat, children: nat, complexChildren: nat,
                               isArray: bool, hasData: bool)

  // ---- what the metadata should be ----

  function Tokens(t: Tree): (s: seq<Token>)
    ensures |s| >= 1
  {
    match t
    case Leaf => [Scalar]
    case Node(isArray, members) => [Start(isArray)] + AllTokens(members) + [End(isArray)]
  }

  function AllTokens(f: Forest): seq<Token> {
    match f
    case Nil => []
    case Cons(first, rest) => Tokens(first) + AllTokens(rest)
  }

  /** Containers in a value, itself included. */
  function Containers(t: Tree): nat {
    match t
    case Leaf => 0
    case Node(_, members) => 1 + AllContainers(members)
  }

  function AllContainers(f: Forest): nat {
    match f
    case Nil => 0
    case Cons(first, rest) => Containers(first) + AllContainers(rest)
  }

  predicate HasScalar(t: Tree) {
    match t
    case Leaf => true
    case Node(_, members) => AnyScalar(members)
  }

  predicate AnyScalar(f: Forest) {
    match f
    case Nil => false
    case Cons(first, rest) => HasScalar(first) || AnyScalar(rest)
  }

  function Count(f: Forest): nat {
    match f
    case Nil => 0
    case Cons(_, rest) => 1 + Count(rest)
  }

  function CountNodes(f: Forest): nat {
    match f
    case Nil => 0
    case Cons(first, rest) => (if first.Node? then 1 else 0) + CountNodes(rest)
  }

  /** The metadata of a value at token position `at`: its containers in preorder. */
  function Metas(t: Tree, at: nat): (m: seq<JsonMeta>)
    ensures |m| == Containers(t)
  {
    match t
    case Leaf => []
    case Node(isArray, members) =>
      [JsonMeta(at, |Tokens(t)|, Containers(t), Count(members), CountNodes(members), isArray, AnyScalar(members))]
      + AllMetas(members, at + 1)
  }

  function AllMetas(f: Forest, at: nat): (m: seq<JsonMeta>)
    ensures |m| == AllContainers(f)
  {
    match f
    case Nil => []
    case Cons(first, rest) => Metas(first, at) + AllMetas(rest, at + |Tokens(first)|)
  }

  // ---- the pass ----

  /** What a stretch of tokens adds: tokens, containers and the scalar flag to every open
      container, children to the innermost. */
  datatype Delta = Delta(size: nat, skip: nat, data: bool, children: nat, complex: nat)

  function Plus(a: Delta, b: Delta): Delta {
    Delta(a.size + b.size, a.skip + b.skip, a.data || b.data, a.children + b.children, a.complex + b.complex)
  }

  function Outer(d: Delta): Delta { d.(children := 0, complex := 0) }

  function Add(m: JsonMeta, d: Delta): JsonMeta {
    JsonMeta(m.position, m.size + d.size, m.skip + d.skip, m.children + d.children, m.complexChildren + d.complex,
             m.isArray, m.hasData || d.data)
  }

  function BumpOne(m: JsonMeta, k: nat, parent: seq<nat>, d: Delta): JsonMeta {
    if k !in parent then m
    else if k == parent[|parent| - 1] then Add(m, d)
    else Add(m, Outer(d))
  }

  function Bump(meta: seq<JsonMeta>, parent: seq<nat>, d: Delta): (r: seq<JsonMeta>)
    ensures |r| == |meta|
  {
    seq(|meta|, k requires 0 <= k < |meta| => BumpOne(meta[k], k, parent, d))
  }

  /** The open containers are among those seen, outermost first. */
  predicate Open(meta: seq<JsonMeta>, parent: seq<nat>) {
    && (forall j :: 0 <= j < |parent| ==> parent[j] < |meta|)
    && (forall i, j :: 0 <= i < j < |parent| ==> parent[i] < parent[j])
  }

  lemma {:induction false} BumpTwice(meta: seq<JsonMeta>, parent: seq<nat>, a: Delta, b: Delta)
    ensures Bump(Bump(meta, parent, a), parent, b) == Bump(meta, parent, Plus(a, b))
  {
    hide BumpOne, Plus;
    forall k | 0 <= k < |meta|
      ensures BumpOne(BumpOne(meta[k], k, parent, a), k, parent, b) == BumpOne(meta[k], k, parent, Plus(a, b))
    {
      BumpOneTwice(meta[k], k, parent, a, b);
    }
  }

  lemma {:induction false} BumpOneTwice(m: JsonMeta, k: nat, parent: seq<nat>, a: Delta, b: Delta)
    ensures BumpOne(BumpOne(m, k, parent, a), k, parent, b) == BumpOne(m, k, parent, Plus(a, b))
  {}

  /** Containers seen after the open ones are not touched. */
  lemma BumpAppend(meta: seq<JsonMeta>, tail: seq<JsonMeta>, parent: seq<nat>, d: Delta)
    requires Open(meta, parent)
    ensures Bump(meta + tail, parent, d) == Bump(meta, parent, d) + tail
  {}

  /** With a new container open, it takes the children, and the others the rest. */
  lemma BumpInner(meta: seq<JsonMeta>, x: JsonMeta, parent: seq<nat>, d: Delta)
    requires Open(meta, parent)
    ensures Bump(meta + [x], parent + [|meta|], d) == Bump(meta, parent, Outer(d)) + [Add(x, d)]
  {
    var l, r := Bump(meta + [x], parent + [|meta|], d), Bump(meta, parent, Outer(d)) + [Add(x, d)];
    forall k | 0 <= k < |l| ensures l[k] == r[k] {}
  }

  lemma OpenInner(meta: seq<JsonMeta>, x: JsonMeta, parent: seq<nat>)
    requires Open(meta, parent)
    ensures Open(meta + [x], parent + [|meta|])
    ensures (parent + [|meta|])[..|parent|] == parent
  {}

  lemma OpenSameLength(a: seq<JsonMeta>, b: seq<JsonMeta>, parent: seq<nat>)
    requires Open(a, parent) && |a| == |b|
    ensures Open(b, parent)
  {}

  /** The containers seen and the stack of open ones; or an end token met an empty stack. */
  datatype Pass = Pass(meta: seq<JsonMeta>, parent: seq<nat>) | Underflow

  predicate Valid(p: Pass) { p.Pass? && Open(p.meta, p.parent) }

  /** What one token does. */
  function Step(p: Pass, token: Token, i: nat): (r: Pass)
    requires Valid(p)
    ensures r.Pass? ==> Valid(r)
  {
    match token
    case End(_) =>
      if p.parent == [] then Underflow
      else Pass(Bump(p.meta, p.parent, Delta(1, 0, false, 0, 0)), p.parent[..|p.parent| - 1])
    case Scalar => Pass(Bump(p.meta, p.parent, Delta(1, 0, true, 1, 0)), p.parent)
    case Start(isArray) =>
      Pass(Bump(p.meta, p.parent, Delta(1, 1, false, 1, 1)) + [JsonMeta(i, 1, 1, 0, 0, isArray, false)],
           p.parent + [|p.meta|])
  }

  function DeltaOf(t: Tree): Delta {
    Delta(|Tokens(t)|, Containers(t), HasScalar(t), 1, if t.Node? then 1 else 0)
  }

  function DeltaOfAll(f: Forest): Delta {
    Delta(|AllTokens(f)|, AllContainers(f), AnyScalar(f), Count(f), CountNodes(f))
  }

  lemma {:induction false} TotalsOfCons(t: Tree, rest: Forest)
    ensures AllTokens(Cons(t, rest)) == Tokens(t) + AllTokens(rest)
    ensures AllContainers(Cons(t, rest)) == Containers(t) + AllContainers(rest)
  {
    hide Tokens, Containers;
  }

  lemma {:induction false} MembersOfCons(t: Tree, rest: Forest)
    ensures AnyScalar(Cons(t, rest)) == (HasScalar(t) || AnyScalar(rest))
    ensures Count(Cons(t, rest)) == 1 + Count(rest)
    ensures CountNodes(Cons(t, rest)) == (if t.Node? then 1 else 0) + CountNodes(rest)
  {
    hide HasScalar;
  }

  lemma {:induction false} DeltaOfCons(t: Tree, rest: Forest)
    ensures DeltaOfAll(Cons(t, rest)) == Plus(DeltaOf(t), DeltaOfAll(rest))
  {
    hide Tokens, AllTokens, Containers, AllContainers, HasScalar, AnyScalar, Count, CountNodes;
    TotalsOfCons(t, rest);
    MembersOfCons(t, rest);
  }

  lemma {:induction false} DeltaOfNode(isArray: bool, members: Forest)
    ensures DeltaOf(Node(isArray, members))
         == Plus(Plus(Delta(1, 1, false, 1, 1), Outer(DeltaOfAll(members))), Delta(1, 0, false, 0, 0))
  {
    hide AllTokens, AllContainers, AnyScalar, Count, CountNodes;
  }

  /** The pass after the tokens of a value, or of a forest, that starts at token i. */
  function AfterTree(p: Pass, t: Tree, i: nat): (r: Pass)
    requires Valid(p)
    ensures Valid(r) && r.parent == p.parent
  {
    Pass(Bump(p.meta, p.parent, DeltaOf(t)) + Metas(t, i), p.parent)
  }

  function After(p: Pass, f: Forest, i: nat): (r: Pass)
    requires Valid(p)
    ensures Valid(r) && r.parent == p.parent
  {
    Pass(Bump(p.meta, p.parent, DeltaOfAll(f)) + AllMetas(f, i), p.parent)
  }

  lemma AfterNil(p: Pass, i: nat)
    requires Valid(p)
    ensures After(p, Nil, i) == p
  {
    assert After(p, Nil, i).meta == p.meta;
  }

  /** A forest is its first value, then the rest. */
  lemma AfterCons(p: Pass, t: Tree, rest: Forest, i: nat)
    requires Valid(p)
    ensures After(AfterTree(p, t, i), rest, i + |Tokens(t)|) == After(p, Cons(t, rest), i)
  {
    DeltaOfCons(t, rest);
    MetasOfCons(t, rest, i);
    hide Bump, DeltaOf, DeltaOfAll, Metas, AllMetas, Tokens, Open, Plus;
    BumpTwice(p.meta, p.parent, DeltaOf(t), DeltaOfAll(rest));
    var m, a, b := Bump(p.meta, p.parent, DeltaOf(t)), Metas(t, i), AllMetas(rest, i + |Tokens(t)|);
    OpenSameLength(p.meta, m, p.parent);
    BumpAppend(m, a, p.parent, DeltaOfAll(rest));
    var n := Bump(m, p.parent, DeltaOfAll(rest));
    assert (n + a) + b == n + (a + b);
  }

  lemma {:induction false} MetasOfCons(t: Tree, rest: Forest, i: nat)
    ensures AllMetas(Cons(t, rest), i) == Metas(t, i) + AllMetas(rest, i + |Tokens(t)|)
  {
    hide Metas, Tokens;
  }

  lemma AfterLeaf(p: Pass, i: nat)
    requires Valid(p)
    ensures Step(p, Scalar, i) == AfterTree(p, Leaf, i)
  {
    assert DeltaOf(Leaf) == Delta(1, 0, true, 1, 0);
    hide DeltaOf, Bump, Open;
    var m := Bump(p.meta, p.parent, Delta(1, 0, true, 1, 0));
    assert Metas(Leaf, i) == [];
    assert m + Metas(Leaf, i) == m;
  }

  /** While its members are read, a container is the innermost open one. */
  lemma AfterMembers(p: Pass, isArray: bool, members: Forest, i: nat)
    requires Valid(p)
    ensures var d, x := DeltaOfAll(members), JsonMeta(i, 1, 1, 0, 0, isArray, false);
      After(Step(p, Start(isArray), i), members, i + 1)
        == Pass((Bump(p.meta, p.parent, Plus(Delta(1, 1, false, 1, 1), Outer(d))) + [Add(x, d)])
                + AllMetas(members, i + 1),
                p.parent + [|p.meta|])
  {
    hide Bump, DeltaOfAll, AllMetas, Open, Plus, Add, Outer;
    var start, d, x := Delta(1, 1, false, 1, 1), DeltaOfAll(members), JsonMeta(i, 1, 1, 0, 0, isArray, false);
    var m := Bump(p.meta, p.parent, start);
    OpenSameLength(p.meta, m, p.parent);
    BumpInner(m, x, p.parent, d);
    BumpTwice(p.meta, p.parent, start, Outer(d));
  }

  /** Its end token counts for it and for those around it, and closes it. */
  lemma AfterEnd(n: seq<JsonMeta>, y: JsonMeta, tail: seq<JsonMeta>, parent: seq<nat>, isArray: bool, i: nat)
    requires Open(n, parent) && Valid(Pass((n + [y]) + tail, parent + [|n|]))
    ensures var end := Delta(1, 0, false, 0, 0);
      Step(Pass((n + [y]) + tail, parent + [|n|]), End(isArray), i)
        == Pass(Bump(n, parent, end) + ([Add(y, end)] + tail), parent)
  {
    hide Bump, Open, Add;
    var end := Delta(1, 0, false, 0, 0);
    OpenInner(n, y, parent);
    BumpAppend(n + [y], tail, parent + [|n|], end);
    BumpInner(n, y, parent, end);
    var l := Bump(n, parent, end);
    assert (l + [Add(y, end)]) + tail == l + ([Add(y, end)] + tail);
  }

  lemma AfterWholeNode(p: Pass, isArray: bool, members: Forest, i: nat)
    requires Valid(p)
    ensures var d, x := DeltaOfAll(members), JsonMeta(i, 1, 1, 0, 0, isArray, false);
      var start, end := Delta(1, 1, false, 1, 1), Delta(1, 0, false, 0, 0);
      AfterTree(p, Node(isArray, members), i)
        == Pass(Bump(Bump(p.meta, p.parent, Plus(start, Outer(d))), p.parent, end)
                + ([Add(Add(x, d), end)] + AllMetas(members, i + 1)), p.parent)
  {
    DeltaOfNode(isArray, members);
    NodeMeta(isArray, members, i);
    BumpTwice(p.meta, p.parent, Plus(Delta(1, 1, false, 1, 1), Outer(DeltaOfAll(members))), Delta(1, 0, false, 0, 0));
    hide Bump, DeltaOf, DeltaOfAll, Metas, AllMetas, Open, Plus, Add, Outer;
  }

  /** A container is its start token, its members, and its end token. */
  lemma AfterNode(p: Pass, isArray: bool, members: Forest, i: nat)
    requires Valid(p)
    ensures var q := After(Step(p, Start(isArray), i), members, i + 1);
      Step(q, End(isArray), i + 1 + |AllTokens(members)|) == AfterTree(p, Node(isArray, members), i)
  {
    assert p.Pass?;
    hide *;
    AfterMembers(p, isArray, members, i);
    var n := Bump(p.meta, p.parent, Plus(Delta(1, 1, false, 1, 1), Outer(DeltaOfAll(members))));
    OpenOf(p, n);
    AfterEnd(n, Add(JsonMeta(i, 1, 1, 0, 0, isArray, false), DeltaOfAll(members)), AllMetas(members, i + 1),
             p.parent, isArray,
             i + 1 + |AllTokens(members)|);
    AfterWholeNode(p, isArray, members, i);
  }

  lemma OpenOf(p: Pass, n: seq<JsonMeta>)
    requires Valid(p) && |n| == |p.meta|
    ensures Open(n, p.parent)
  {}

  /** The metadata of a container, as a new entry to which its members and its end are added. */
  lemma NodeMeta(isArray: bool, members: Forest, i: nat)
    ensures Metas(Node(isArray, members), i)
         == [Add(Add(JsonMeta(i, 1, 1, 0, 0, isArray, false), DeltaOfAll(members)), Delta(1, 0, false, 0, 0))]
            + AllMetas(members, i + 1)
  {
    var t := Node(isArray, members);
    NodeSizes(isArray, members);
    var head := JsonMeta(i, |Tokens(t)|, Containers(t), Count(members), CountNodes(members), isArray,
                         AnyScalar(members));
    assert Metas(t, i) == [head] + AllMetas(members, i + 1);
    hide Tokens, AllTokens, Containers, AllContainers, Metas, AllMetas, Count, CountNodes, AnyScalar;
    assert head == Add(Add(JsonMeta(i, 1, 1, 0, 0, isArray, false), DeltaOfAll(members)), Delta(1, 0, false, 0, 0));
  }

  lemma NodeSizes(isArray: bool, members: Forest)
    ensures |Tokens(Node(isArray, members))| == |AllTokens(members)| + 2
    ensures Containers(Node(isArray, members)) == 1 + AllContainers(members)
  {}

  // ---- the pass over a token sequence ----

  function Run(p: Pass, tokens: seq<Token>, i: nat): Pass
    requires (p.Pass? ==> Valid(p)) && i <= |tokens|
    decreases |tokens| - i
  {
    if i == |tokens| || p.Underflow? then p else Run(Step(p, tokens[i], i), tokens, i + 1)
  }

  predicate Holds(tokens: seq<Token>, i: nat, part: seq<Token>) {
    i + |part| <= |tokens| && tokens[i..i + |part|] == part
  }

  lemma HoldsParts(tokens: seq<Token>, i: nat, a: seq<Token>, b: seq<Token>)
    requires Holds(tokens, i, a + b)
    ensures Holds(tokens, i, a) && Holds(tokens, i + |a|, b)
    ensures |a| == 1 ==> tokens[i] == a[0]
  {
    var all := tokens[i..i + |a + b|];
    assert tokens[i..i + |a|] == all[..|a|] && tokens[i + |a|..i + |a| + |b|] == all[|a|..];
    if |a| == 1 { assert tokens[i] == all[0]; }
  }

  lemma NodeParts(tokens: seq<Token>, i: nat, isArray: bool, members: Forest)
    requires Holds(tokens, i, Tokens(Node(isArray, members)))
    ensures var end := i + 1 + |AllTokens(members)|;
      && tokens[i] == Start(isArray) && Holds(tokens, i + 1, AllTokens(members))
      && end < |tokens| && tokens[end] == End(isArray)
      && end + 1 == i + |Tokens(Node(isArray, members))| <= |tokens|
  {
    var start, body, end := [Start(isArray)], AllTokens(members), [End(isArray)];
    assert start + body + end == start + (body + end);
    HoldsParts(tokens, i, start, body + end);
    HoldsParts(tokens, i + 1, body, end);
    HoldsParts(tokens, i + 1 + |body|, end, []);
  }

  lemma ForestParts(tokens: seq<Token>, i: nat, first: Tree, rest: Forest)
    requires Holds(tokens, i, AllTokens(Cons(first, rest)))
    ensures Holds(tokens, i, Tokens(first)) && Holds(tokens, i + |Tokens(first)|, AllTokens(rest))
    ensures |AllTokens(Cons(first, rest))| == |Tokens(first)| + |AllTokens(rest)|
    ensures i + |Tokens(first)| + |AllTokens(rest)| <= |tokens|
  {
    HoldsParts(tokens, i, Tokens(first), AllTokens(rest));
  }

  lemma RunOne(p: Pass, tokens: seq<Token>, i: nat)
    requires Valid(p) && i < |tokens|
    ensures Run(p, tokens, i) == Run(Step(p, tokens[i], i), tokens, i + 1)
  {}

  lemma RunLeaf(p: Pass, tokens: seq<Token>, i: nat)
    requires Valid(p) && Holds(tokens, i, Tokens(Leaf))
    ensures i + |Tokens(Leaf)| <= |tokens|
    ensures Run(p, tokens, i) == Run(AfterTree(p, Leaf, i), tokens, i + |Tokens(Leaf)|)
  {
    assert tokens[i] == tokens[i..i + 1][0];
    assert tokens[i] == Scalar && |Tokens(Leaf)| == 1;
    hide *;
    AfterLeaf(p, i);
    RunOne(p, tokens, i);
  }

  /** Running over the tokens of a value is one step of the specification. */
  lemma {:induction false} RunTree(p: Pass, tokens: seq<Token>, i: nat, t: Tree)
    requires Valid(p) && i + |Tokens(t)| <= |tokens| && Holds(tokens, i, Tokens(t))
    ensures Run(p, tokens, i) == Run(AfterTree(p, t, i), tokens, i + |Tokens(t)|)
    decreases t
  {
    hide *;
    match t
    case Leaf => RunLeaf(p, tokens, i);
    case Node(isArray, members) =>
      NodeParts(tokens, i, isArray, members);
      StepStart(p, isArray, i);
      var q0, j := Step(p, Start(isArray), i), i + 1 + |AllTokens(members)|;
      RunOne(p, tokens, i);
      RunForest(q0, tokens, i + 1, members);
      RunOne(After(q0, members, i + 1), tokens, j);
      AfterNode(p, isArray, members, i);
  }

  lemma StepStart(p: Pass, isArray: bool, i: nat)
    requires Valid(p)
    ensures Valid(Step(p, Start(isArray), i))
  {}

  lemma {:induction false} RunForest(p: Pass, tokens: seq<Token>, i: nat, f: Forest)
    requires Valid(p) && i + |AllTokens(f)| <= |tokens| && Holds(tokens, i, AllTokens(f))
    ensures Run(p, tokens, i) == Run(After(p, f, i), tokens, i + |AllTokens(f)|)
    decreases f
  {
    hide *;
    match f
    case Nil => RunNil(p, tokens, i);
    case Cons(first, rest) =>
      ForestParts(tokens, i, first, rest);
      RunTree(p, tokens, i, first);
      RunForest(AfterTree(p, first, i), tokens, i + |Tokens(first)|, rest);
      AfterCons(p, first, rest, i);
  }

  lemma RunNil(p: Pass, tokens: seq<Token>, i: nat)
    requires Valid(p) && i <= |tokens|
    ensures |AllTokens(Nil)| == 0 && Run(p, tokens, i) == Run(After(p, Nil, i), tokens, i)
  {
    AfterNil(p, i);
  }

  lemma RaiseOne(meta: seq<JsonMeta>, parent: seq<nat>, j: nat, d: Delta)
    requires Open(meta, parent) && j < |parent| && Outer(d) == d
    ensures var r, k := Bump(meta, parent[..j], d), parent[j];
      r[k := Add(r[k], d)] == Bump(meta, parent[..j + 1], d)
  {
    assert parent[..j + 1] == parent[..j] + [parent[j]];
    assert parent[j] !in parent[..j];
  }

  /** A loop over the open containers. */
  method Raise(meta: seq<JsonMeta>, parent: seq<nat>, size: nat, skip: nat, data: bool) returns (r: seq<JsonMeta>)
    requires Open(meta, parent)
    ensures Open(r, parent) && r == Bump(meta, parent, Delta(size, skip, data, 0, 0))
  {
    var d := Delta(size, skip, data, 0, 0);
    r := meta;
    assert r == Bump(meta, parent[..0], d);
    hide Bump, Add;
    for j := 0 to |parent|
      invariant r == Bump(meta, parent[..j], d)
    {
      var k := parent[j];
      RaiseOne(meta, parent, j, d);
      r := r[k := Add(r[k], d)];
    }
    assert parent[..|parent|] == parent;
  }

  lemma BumpNone(meta: seq<JsonMeta>, d: Delta)
    ensures Bump(meta, [], d) == meta
  {}

  /** metaForTokens: one pass gives each container, in preorder, its position, its tokens,
      the containers in it, its children and whether it holds a scalar. */
  method MetaForTokens(tokens: seq<Token>, ghost values: Forest) returns (meta: seq<JsonMeta>)
    requires tokens == AllTokens(values)
    ensures meta == AllMetas(values, 0)
  {
    ghost var p0 := Pass([], []);
    WholeRun(p0, 0, tokens, values);
    meta := [];
    var parent: seq<nat> := [];
    hide AllTokens, AllMetas, Step, Open;
    for i := 0 to |tokens|
      invariant Valid(Pass(meta, parent))
      invariant Run(Pass(meta, parent), tokens, i) == Run(p0, tokens, 0)
    {
      meta, parent := OneToken(meta, parent, tokens[i], i);
    }
  }

  lemma WholeRun(p0: Pass, start: nat, tokens: seq<Token>, values: Forest)
    requires p0 == Pass([], []) && start == 0 && tokens == AllTokens(values)
    ensures Valid(p0) && Run(p0, tokens, start) == Pass(AllMetas(values, start), [])
  {
    assert Holds(tokens, start, AllTokens(values));
    var m := AllMetas(values, start);
    assert [] + m == m;
    BumpNone(p0.meta, DeltaOfAll(values));
    assert After(p0, values, start) == Pass(m, []);
    RunForest(p0, tokens, start, values);
    hide AllTokens, AllMetas, After, Step;
  }

  /** One round of the loop. */
  method OneToken(meta0: seq<JsonMeta>, parent0: seq<nat>, token: Token, i: nat)
    returns (meta: seq<JsonMeta>, parent: seq<nat>)
    requires Valid(Pass(meta0, parent0)) && Step(Pass(meta0, parent0), token, i).Pass?
    ensures Pass(meta, parent) == Step(Pass(meta0, parent0), token, i)
  {
    hide Bump, Open, Outer;
    parent := parent0;
    meta := Raise(meta0, parent, 1, 0, false);
    if token.End? {
      parent := parent[..|parent| - 1];
    } else {
      meta := Adopt(meta, parent, 1, 0);
      BumpTwice(meta0, parent, Delta(1, 0, false, 0, 0), Delta(0, 0, false, 1, 0));
    }
    if token.Start? {
      meta := Adopt(meta, parent, 0, 1);
      BumpTwice(meta0, parent, Delta(1, 0, false, 1, 0), Delta(0, 0, false, 0, 1));
      meta := Raise(meta, parent, 0, 1, false);
      BumpTwice(meta0, parent, Delta(1, 0, false, 1, 1), Delta(0, 1, false, 0, 0));
      meta := meta + [JsonMeta(i, 1, 1, 0, 0, token.isArray, false)];
      parent := parent + [|meta| - 1];
    } else if !token.End? {
      meta := Raise(meta, parent, 0, 0, true);
      BumpTwice(meta0, parent, Delta(1, 0, false, 1, 0), Delta(0, 0, true, 0, 0));
    }
  }

  /** Counts a child in the innermost open container, if there is one. */
  method Adopt(meta: seq<JsonMeta>, parent: seq<nat>, children: nat, complex: nat) returns (r: seq<JsonMeta>)
    requires Open(meta, parent)
    ensures Open(r, parent) && r == Bump(meta, parent, Delta(0, 0, false, children, complex))
  {
    if parent == [] { return meta; }
    var k := parent[|parent| - 1];
    r := meta[k := meta[k].(children := meta[k].children + children,
                            complexChildren := meta[k].complexChildren + complex)];
  }

  // ---- the iterator over a container's members ----

  /** Where the members of a forest start, for a forest at position `at`. */
  function Starts(f: Forest, at: nat): (s: seq<nat>)
    ensures |s| == Count(f)
  {
    match f
    case Nil => []
    case Cons(first, rest) => [at] + Starts(rest, at + |Tokens(first)|)
  }

  /** Position of the first container in metadata from entry k on, or the end of the tokens. */
  function NextComplex(meta: seq<JsonMeta>, k: nat, tokens: nat): nat {
    if k < |meta| then meta[k].position else tokens
  }

  /** The iterator over the direct members of the value that tokens and metadata describe. */
  class It {
    const tokens: seq<Token>
    const meta: seq<JsonMeta>
    var index: nat
    var nextMeta: nat
    var nextComplex: nat

    /** begin() */
    constructor (tokens: seq<Token>, meta: seq<JsonMeta>)
      ensures this.tokens == tokens && this.meta == meta
      ensures index == 1 && nextMeta == 1 && nextComplex == NextComplex(meta, 1, |tokens|)
    {
      this.tokens, this.meta := tokens, meta;
      index, nextMeta := 1, 1;
      nextComplex := if 1 < |meta| then meta[1].position else |tokens|;
    }

    ghost predicate At(left: Forest, at: nat)
      reads this
    {
      Standing(tokens, meta, index, nextMeta, nextComplex, left, at)
    }

    /** Incrementing passes over one member, or over the closing token. */
    method Advance(ghost left: Forest, ghost at: nat)
      requires At(left, at)
      modifies this
      ensures index > old(index)
      ensures left.Cons? ==> At(left.rest, at + |Tokens(left.first)|)
      ensures left.Nil? ==> index == |tokens|
    {
      hide Standing;
      if left.Cons? {
        PassesMember(tokens, meta, index, nextMeta, nextComplex, left, at);
      } else {
        PassesClosing(tokens, meta, index, nextMeta, nextComplex, at);
      }
      Increment();
    }

    /** operator++ */
    method Increment()
      requires index == nextComplex ==> nextMeta < |meta|
      modifies this
      ensures index == old(index) + (if old(index == nextComplex) then meta[old(nextMeta)].size else 1)
      ensures nextMeta == old(nextMeta) + (if old(index == nextComplex) then meta[old(nextMeta)].skip else 0)
      ensures nextComplex == if old(index == nextComplex) then NextComplex(meta, nextMeta, |tokens|)
          else old(nextComplex)
    {
      if index == nextComplex {
        index := index + meta[nextMeta].size;
        nextMeta := nextMeta + meta[nextMeta].skip;
        nextComplex := if nextMeta < |meta| then meta[nextMeta].position else |tokens|;
      } else {
        index := index + 1;
      }
    }
  }

  /** The iterator is at `at`, where the members `left` of a container at the end of the
      tokens start. */
  predicate Standing(tokens: seq<Token>, meta: seq<JsonMeta>, index: nat, nextMeta: nat, nextComplex: nat,
                     left: Forest, at: nat) {
    && index == at && at + |AllTokens(left)| + 1 == |tokens|
    && nextMeta <= |meta| && meta[nextMeta..] == AllMetas(left, at)
    && nextComplex == NextComplex(meta, nextMeta, |tokens|)
  }

  /** One increment passes over exactly one member. */
  lemma PassesMember(tokens: seq<Token>, meta: seq<JsonMeta>, index: nat, k: nat, complex: nat, left: Forest, at: nat)
    requires left.Cons? && Standing(tokens, meta, index, k, complex, left, at)
    ensures index < |tokens| && (index == complex ==> k < |meta| && meta[k].size >= 1)
    ensures var next := at + |Tokens(left.first)|;
      if index == complex then
        Standing(tokens, meta, index + meta[k].size, k + meta[k].skip, NextComplex(meta, k + meta[k].skip, |tokens|),
                 left.rest, next)
      else Standing(tokens, meta, index + 1, k, complex, left.rest, next)
  {
    FirstMember(tokens, meta, k, left, at);
  }

  lemma PassesClosing(tokens: seq<Token>, meta: seq<JsonMeta>, index: nat, k: nat, complex: nat, at: nat)
    requires Standing(tokens, meta, index, k, complex, Nil, at)
    ensures index == |tokens| - 1 && complex == |tokens| && Starts(Nil, at) == []
  {}

  /** At a member: whether it is a container, and where the next one starts. */
  lemma FirstMember(tokens: seq<Token>, meta: seq<JsonMeta>, k: nat, left: Forest, at: nat)
    requires left.Cons? && k <= |meta| && meta[k..] == AllMetas(left, at)
    requires at + |AllTokens(left)| + 1 == |tokens|
    ensures left.first.Node? ==> NextComplex(meta, k, |tokens|) == at && k < |meta|
    ensures left.first.Node? ==> meta[k].size == |Tokens(left.first)| && meta[k].skip == Containers(left.first)
    ensures left.first.Leaf? ==> NextComplex(meta, k, |tokens|) > at
    ensures k + Containers(left.first) <= |meta|
    ensures meta[k + Containers(left.first)..] == AllMetas(left.rest, at + |Tokens(left.first)|)
  {
    var c := Containers(left.first);
    assert meta[k..][c..] == meta[k + c..];
    if left.first.Node? {
      assert meta[k] == meta[k..][0];
    } else if k < |meta| {
      assert meta[k] == meta[k..][0];
      MetasStart(left.rest, at + 1);
    }
  }

  /** The metadata of a forest starts at or after the forest. */
  lemma {:induction false} MetasStart(f: Forest, at: nat)
    ensures AllMetas(f, at) != [] ==> AllMetas(f, at)[0].position >= at
    decreases f
  {
    if f.Cons? && f.first.Leaf? { MetasStart(f.rest, at + 1); }
  }

  /** From begin() to end(): the iterator stops at each direct member of the root, in order,
      and then at the root's closing token. */
  method VisitAll(root: Tree, tokens: seq<Token>, meta: seq<JsonMeta>) returns (visited: seq<nat>)
    requires root.Node? && tokens == Tokens(root) && meta == Metas(root, 0)
    ensures visited == Starts(root.members, 1) + [|tokens| - 1]
    ensures tokens[visited[|visited| - 1]] == End(root.isArray)
  {
    var it := new It(tokens, meta);
    ghost var left: Forest, at: nat := root.members, 1;
    ghost var closed := false;
    RootParts(root);
    ghost var all := Stops(root.members, 1, false);
    ghost var rest := all;
    visited := [];
    assert visited + rest == all;
    hide *;
    while it.index != |tokens|
      invariant it.tokens == tokens && it.meta == meta
      invariant closed ==> it.index == |tokens|
      invariant !closed ==> it.At(left, at)
      invariant visited + rest == all && rest == Stops(left, at, closed)
      decreases |tokens| - it.index
    {
      AtStop(it, left, at, closed);
      MoveFirst(visited, rest);
      visited, rest := visited + [it.index], rest[1..];
      it.Advance(left, at);
      if left.Cons? { at, left := at + |Tokens(left.first)|, left.rest; } else { closed := true; }
    }
    NoMoreStops(it, left, at, closed);
  }

  lemma MoveFirst(visited: seq<nat>, rest: seq<nat>)
    requires rest != []
    ensures (visited + [rest[0]]) + rest[1..] == visited + rest
  {}

  /** The members' starts, and then the closing token. */
  function Stops(left: Forest, at: nat, closed: bool): seq<nat> {
    if closed then [] else Starts(left, at) + [at + |AllTokens(left)|]
  }

  lemma AtStop(it: It, left: Forest, at: nat, closed: bool)
    requires !closed && it.At(left, at)
    ensures it.index == at < |it.tokens|
    ensures var rest := Stops(left, at, closed);
      && rest != [] && rest[0] == at
      && (left.Cons? ==> rest[1..] == Stops(left.rest, at + |Tokens(left.first)|, false))
      && (left.Nil? ==> rest[1..] == Stops(left, at, true))
  {}

  lemma NoMoreStops(it: It, left: Forest, at: nat, closed: bool)
    requires it.index == |it.tokens| && (!closed ==> it.At(left, at))
    ensures Stops(left, at, closed) == []
  {
    if !closed { AtStop(it, left, at, closed); }
  }

  lemma RootParts(root: Tree)
    requires root.Node?
    ensures |Tokens(root)| == |AllTokens(root.members)| + 2 && Tokens(root)[|Tokens(root)| - 1] == End(root.isArray)
    ensures Standing(Tokens(root), Metas(root, 0), 1, 1, NextComplex(Metas(root, 0), 1, |Tokens(root)|),
                     root.members, 1)
    ensures Stops(root.members, 1, false) == Starts(root.members, 1) + [|Tokens(root)| - 1]
  {}
}
