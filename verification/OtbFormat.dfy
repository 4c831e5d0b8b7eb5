/** The OTB file format (src/fileloader.h, src/fileloader.cpp): a tree of nodes with a type byte and
    escaped properties, between start and end markers, after a four byte identifier. */
module OtbFormat {

  newtype byte = b: int | 0 <= b < 0x100

  const ESCAPE: byte := 0xFD
  const START: byte := 0xFE
  const END: byte := 0xFF
  const IDENTIFIER_SIZE := 4

  /** A node as the parser builds it: the properties are a stretch of the file. */
  datatype Node = Node(typ: byte, propsBegin: nat, propsEnd: nat, children: seq<Node>)

  /** What a node means. */
  datatype Tree = Tree(typ: byte, props: seq<byte>, children: seq<Tree>)

  datatype Result<+T> = Ok(value: T) | InvalidFormat

  datatype Option<+T> = None | Some(value: T)

  // Writing a tree.

  function Escaped(props: seq<byte>): seq<byte> {
    if props == [] then []
    else (if props[0] >= ESCAPE then [ESCAPE, props[0]] else [props[0]]) + Escaped(props[1..])
  }

  function Encoded(t: Tree): seq<byte>
    decreases t, 1
  {
    [START, t.typ] + Escaped(t.props) + EncodedAll(t.children) + [END]
  }

  function EncodedAll(ts: seq<Tree>): seq<byte>
    decreases ts, 0
  {
    if ts == [] then [] else Encoded(ts[0]) + EncodedAll(ts[1..])
  }

  // Reading it back.

  /** The escape marker is dropped and whatever follows it is kept. */
  function Unescaped(bytes: seq<byte>, lastEscaped: bool): seq<byte> {
    if bytes == [] then []
    else
      var escape := bytes[0] == ESCAPE && !lastEscaped;
      (if escape then [] else [bytes[0]]) + Unescaped(bytes[1..], escape)
  }

  /** The top of the stack learns where its properties end when its first child or its end mark comes. */
  function Closed(node: Node, it: nat): Node {
    if node.children == [] then node.(propsEnd := it) else node
  }

  /** The node on top is finished and becomes the last child of the one below, or the root. */
  function Popped(stack: seq<Node>): seq<Node>
    requires |stack| >= 2
  {
    var parent := stack[|stack| - 2];
    stack[..|stack| - 2] + [parent.(children := parent.children + [stack[|stack| - 1]])]
  }

  /** What the parser's loop makes of the rest of the file from `it` on; `done` is the finished root. */
  function Scan(file: seq<byte>, it: nat, stack: seq<Node>, done: Node): Result<Node>
    requires it <= |file|
    decreases |file| - it
  {
    if it == |file| then
      if stack == [] then Ok(done) else InvalidFormat
    else if file[it] == START then
      if stack == [] || it + 1 == |file| then InvalidFormat
      else
        var top := Closed(stack[|stack| - 1], it);
        Scan(file, it + 2, stack[..|stack| - 1] + [top] + [Node(file[it + 1], it + 2, 0, [])], done)
    else if file[it] == END then
      if stack == [] then InvalidFormat
      else
        var closed := stack[|stack| - 1 := Closed(stack[|stack| - 1], it)];
        if |stack| == 1 then Scan(file, it + 1, [], closed[0])
        else Scan(file, it + 1, Popped(closed), done)
    else if file[it] == ESCAPE then
      if it + 1 == |file| then InvalidFormat else Scan(file, it + 2, stack, done)
    else
      Scan(file, it + 1, stack, done)
  }

  /** The node the parser must build for t when t's start mark is at `at`. */
  function Located(t: Tree, at: nat): Node
    decreases t, 1
  {
    var propsEnd := at + 2 + |Escaped(t.props)|;
    Node(t.typ, at + 2, propsEnd, LocatedAll(t.children, propsEnd))
  }

  function LocatedAll(ts: seq<Tree>, at: nat): seq<Node>
    decreases ts, 0
  {
    if ts == [] then [] else [Located(ts[0], at)] + LocatedAll(ts[1..], at + |Encoded(ts[0])|)
  }

  /** The file holds `bytes` at `it`. */
  predicate Holds(file: seq<byte>, it: nat, bytes: seq<byte>) {
    it + |bytes| <= |file| && file[it..it + |bytes|] == bytes
  }

  lemma HoldsSplit(file: seq<byte>, it: nat, a: seq<byte>, b: seq<byte>)
    requires Holds(file, it, a + b)
    ensures Holds(file, it, a) && Holds(file, it + |a|, b)
  {
    assert file[it..it + |a|] == file[it..it + |a + b|][..|a|];
    assert file[it + |a|..it + |a| + |b|] == file[it..it + |a + b|][|a|..];
  }

  lemma HoldsAt(file: seq<byte>, it: nat, bytes: seq<byte>, k: nat)
    requires Holds(file, it, bytes) && k < |bytes|
    ensures file[it + k] == bytes[k]
  {
    assert file[it..it + |bytes|][k] == bytes[k];
  }

  lemma FourParts(file: seq<byte>, it: nat, a: seq<byte>, b: seq<byte>, c: seq<byte>, d: seq<byte>)
    requires Holds(file, it, a + (b + (c + d))) && |a| == 2 && |d| == 1
    ensures |a + (b + (c + d))| == |b| + |c| + 3 && it + |b| + |c| + 3 <= |file|
    ensures file[it] == a[0] && file[it + 1] == a[1] && file[it + 2 + |b| + |c|] == d[0]
    ensures Holds(file, it + 2, b) && Holds(file, it + 2 + |b|, c)
  {
    HoldsSplit(file, it, a, b + (c + d));
    HoldsSplit(file, it + 2, b, c + d);
    HoldsSplit(file, it + 2 + |b|, c, d);
    HoldsAt(file, it, a, 0);
    HoldsAt(file, it, a, 1);
    HoldsAt(file, it + 2 + |b| + |c|, d, 0);
  }

  lemma EndFound(s: Spelling, it: nat, below: seq<Node>, end: nat)
    requires end == it + 2 + |s.props| + |SpelledAll(s.children)|
    ensures var propsEnd := it + 2 + |s.props|;
            var filled := WithChildren(below + [Node(s.typ, it + 2, 0, [])], propsEnd, FoundAll(s.children, propsEnd));
            filled[|filled| - 1 := Closed(filled[|filled| - 1], end)] == below + [Found(s, it)]
  {
    var nodes := FoundAll(s.children, it + 2 + |s.props|);
    if s.children == [] {
      assert nodes == [] && SpelledAll(s.children) == [];
    } else {
      assert [] + nodes == nodes;
    }
  }

  /** Escaped properties are skipped as a whole. */
  lemma {:induction false} ScanProps(file: seq<byte>, it: nat, props: seq<byte>, stack: seq<Node>, done: Node)
    requires Holds(file, it, Escaped(props))
    ensures Scan(file, it, stack, done) == Scan(file, it + |Escaped(props)|, stack, done)
    decreases props
  {
    if props != [] {
      var head := if props[0] >= ESCAPE then [ESCAPE, props[0]] else [props[0]];
      HoldsSplit(file, it, head, Escaped(props[1..]));
      assert file[it..it + |head|][0] == head[0];
      ScanProps(file, it + |head|, props[1..], stack, done);
    }
  }

  /** The stack after the top node got one more finished child that started at `it`. */
  function WithChildren(stack: seq<Node>, it: nat, children: seq<Node>): seq<Node>
    requires stack != []
  {
    var top := stack[|stack| - 1];
    if children == [] then stack
    else stack[|stack| - 1 := Closed(top, it).(children := top.children + children)]
  }

  lemma {:induction false} ScanNode(file: seq<byte>, it: nat, t: Tree, stack: seq<Node>, done: Node)
    requires Holds(file, it, Encoded(t)) && stack != []
    ensures Scan(file, it, stack, done)
            == Scan(file, it + |Encoded(t)|, WithChildren(stack, it, [Located(t, it)]), done)
    decreases t, 1
  {
    EncodedHolds(file, it, t);
    var below := stack[..|stack| - 1] + [Closed(stack[|stack| - 1], it)];
    var pushed := below + [Node(t.typ, it + 2, 0, [])];
    var propsEnd, end := ScanBody(file, it + 2, t, pushed, done);
    var filled := WithChildren(pushed, propsEnd, LocatedAll(t.children, propsEnd));
    calc {
      Scan(file, it, stack, done);
      Scan(file, it + 2, pushed, done);
      Scan(file, end, filled, done);
    ==  { ScanEnd(file, end, filled, done); }
      Scan(file, end + 1, Popped(filled[|filled| - 1 := Closed(filled[|filled| - 1], end)]), done);
    ==  { EndNode(t, it, below, propsEnd, end); }
      Scan(file, end + 1, Popped(below + [Located(t, it)]), done);
    ==  { PopNode(stack, it, Located(t, it)); }
      Scan(file, end + 1, WithChildren(stack, it, [Located(t, it)]), done);
    }
  }

  function Body(t: Tree): seq<byte> {
    Escaped(t.props) + EncodedAll(t.children) + [END]
  }

  lemma EncodedHolds(file: seq<byte>, it: nat, t: Tree)
    requires Holds(file, it, Encoded(t))
    ensures |Encoded(t)| == 2 + |Body(t)| && it + 2 <= |file| && file[it] == START && file[it + 1] == t.typ
    ensures Holds(file, it + 2, Body(t))
  {
    assert Encoded(t) == [START, t.typ] + Body(t);
    HoldsSplit(file, it, [START, t.typ], Body(t));
    assert file[it..it + 2][0] == START && file[it..it + 2][1] == t.typ;
  }

  lemma ScanEnd(file: seq<byte>, it: nat, stack: seq<Node>, done: Node)
    requires it < |file| && file[it] == END && |stack| >= 2
    ensures Scan(file, it, stack, done) ==
            Scan(file, it + 1, Popped(stack[|stack| - 1 := Closed(stack[|stack| - 1], it)]), done)
  {
  }

  /** The end mark leaves the finished node on top. */
  lemma EndNode(t: Tree, it: nat, below: seq<Node>, propsEnd: nat, end: nat)
    requires propsEnd == it + 2 + |Escaped(t.props)| && end == propsEnd + |EncodedAll(t.children)|
    ensures var filled := WithChildren(below + [Node(t.typ, it + 2, 0, [])], propsEnd,
            LocatedAll(t.children, propsEnd));
            filled[|filled| - 1 := Closed(filled[|filled| - 1], end)] == below + [Located(t, it)]
  {
    var open := Node(t.typ, it + 2, 0, []);
    var children := LocatedAll(t.children, propsEnd);
    var filled := WithChildren(below + [open], propsEnd, children);
    if t.children == [] {
      assert children == [] && EncodedAll(t.children) == [];
    } else {
      assert [] + children == children;
      assert filled[|filled| - 1] == Located(t, it);
    }
  }

  lemma PopNode(stack: seq<Node>, it: nat, node: Node)
    requires stack != []
    ensures Popped(stack[..|stack| - 1] + [Closed(stack[|stack| - 1], it)] + [node]) == WithChildren(stack, it, [node])
  {
  }

  /** Adding children in two goes is adding them at once. */
  lemma JoinChildren(stack: seq<Node>, it: nat, next: nat, first: Node, rest: seq<Node>)
    requires stack != []
    ensures WithChildren(WithChildren(stack, it, [first]), next, rest) == WithChildren(stack, it, [first] + rest)
  {
    var top := stack[|stack| - 1];
    assert top.children + [first] + rest == top.children + ([first] + rest);
    if rest == [] {
      assert [first] + rest == [first];
    }
  }

  /** From behind the type byte of a node to its end mark. */
  lemma {:induction false} ScanBody(file: seq<byte>, it: nat, t: Tree, stack: seq<Node>, done: Node)
    returns (propsEnd: nat, end: nat)
    requires Holds(file, it, Body(t)) && stack != []
    ensures propsEnd == it + |Escaped(t.props)| && end == propsEnd + |EncodedAll(t.children)| < |file|
            && file[end] == END
    ensures Scan(file, it, stack, done)
            == Scan(file, end, WithChildren(stack, propsEnd, LocatedAll(t.children, propsEnd)), done)
    decreases t, 0
  {
    propsEnd := it + |Escaped(t.props)|;
    end := propsEnd + |EncodedAll(t.children)|;
    BodyHolds(file, it, Escaped(t.props), EncodedAll(t.children));
    ScanProps(file, it, t.props, stack, done);
    ScanNodes(file, propsEnd, t.children, stack, done);
  }

  lemma BodyHolds(file: seq<byte>, it: nat, props: seq<byte>, kids: seq<byte>)
    requires Holds(file, it, props + kids + [END])
    ensures Holds(file, it, props) && Holds(file, it + |props|, kids)
    ensures it + |props| + |kids| < |file| && file[it + |props| + |kids|] == END
  {
    HoldsSplit(file, it, props + kids, [END]);
    HoldsSplit(file, it, props, kids);
    HoldsAt(file, it + |props + kids|, [END], 0);
  }

  lemma {:induction false} ScanNodes(file: seq<byte>, it: nat, ts: seq<Tree>, stack: seq<Node>, done: Node)
    requires Holds(file, it, EncodedAll(ts)) && stack != []
    ensures Scan(file, it, stack, done)
            == Scan(file, it + |EncodedAll(ts)|, WithChildren(stack, it, LocatedAll(ts, it)), done)
    decreases ts, 0
  {
    if ts != [] {
      HoldsSplit(file, it, Encoded(ts[0]), EncodedAll(ts[1..]));
      ScanNode(file, it, ts[0], stack, done);
      var next := it + |Encoded(ts[0])|;
      var stack' := WithChildren(stack, it, [Located(ts[0], it)]);
      ScanNodes(file, next, ts[1..], stack', done);
      JoinChildren(stack, it, next, Located(ts[0], it), LocatedAll(ts[1..], next));
    }
  }

  /** The meaning of a parsed node: every node's properties as getProps delivers them. */
  function Meaning(file: seq<byte>, node: Node): Tree
    requires Placed(node, |file|)
    decreases node, 1
  {
    Tree(node.typ, Unescaped(file[node.propsBegin..node.propsEnd], false), Meanings(file, node.children))
  }

  function Meanings(file: seq<byte>, nodes: seq<Node>): seq<Tree>
    requires forall k :: 0 <= k < |nodes| ==> Placed(nodes[k], |file|)
    decreases nodes, 0
  {
    if nodes == [] then [] else [Meaning(file, nodes[0])] + Meanings(file, nodes[1..])
  }

  /** The node's properties, and those of everything below it, are stretches of a file of this size. */
  predicate Placed(node: Node, size: nat) {
    node.propsBegin <= node.propsEnd <= size && forall k :: 0 <= k < |node.children| ==> Placed(node.children[k], size)
  }

  lemma {:induction false} UnescapedEscaped(props: seq<byte>)
    ensures Unescaped(Escaped(props), false) == props
  {
    if props != [] {
      UnescapedEscaped(props[1..]);
      var rest := Escaped(props[1..]);
      if props[0] >= ESCAPE {
        assert Escaped(props) == [ESCAPE, props[0]] + rest;
        assert Escaped(props)[1..] == [props[0]] + rest && Escaped(props)[1..][1..] == rest;
      } else {
        assert Escaped(props)[1..] == rest;
      }
    }
  }

  /** The node built for t means t. */
  lemma {:induction false} LocatedMeans(file: seq<byte>, t: Tree, at: nat)
    requires Holds(file, at, Encoded(t))
    ensures Placed(Located(t, at), |file|) && Meaning(file, Located(t, at)) == t
    decreases t, 1
  {
    var props := Escaped(t.props);
    EncodedParts(file, t, at, props, EncodedAll(t.children));
    LocatedAllMean(file, t.children, at + 2 + |props|);
    UnescapedEscaped(t.props);
  }

  lemma EncodedParts(file: seq<byte>, t: Tree, at: nat, props: seq<byte>, rest: seq<byte>)
    requires Holds(file, at, Encoded(t)) && props == Escaped(t.props) && rest == EncodedAll(t.children)
    ensures Holds(file, at + 2, props) && Holds(file, at + 2 + |props|, rest)
  {
    assert Encoded(t) == [START, t.typ] + (props + (rest + [END]));
    FourParts(file, at, [START, t.typ], props, rest, [END]);
  }

  lemma {:induction false} LocatedAllMean(file: seq<byte>, ts: seq<Tree>, at: nat)
    requires Holds(file, at, EncodedAll(ts))
    ensures forall k :: 0 <= k < |LocatedAll(ts, at)| ==> Placed(LocatedAll(ts, at)[k], |file|)
    ensures Meanings(file, LocatedAll(ts, at)) == ts
    decreases ts, 0
  {
    if ts != [] {
      HoldsSplit(file, at, Encoded(ts[0]), EncodedAll(ts[1..]));
      LocatedMeans(file, ts[0], at);
      LocatedAllMean(file, ts[1..], at + |Encoded(ts[0])|);
    }
  }

  /** The nodes on the stack can only end up as stretches of the file. */
  predicate OnTheWay(stack: seq<Node>, it: nat) {
    forall k :: 0 <= k < |stack| ==>
      stack[k].propsBegin <= it && if k < |stack| - 1 || stack[k].children != [] then Placed(stack[k], it) else true
  }

  lemma {:induction false} PlacedLater(node: Node, it: nat, size: nat)
    requires Placed(node, it) && it <= size
    ensures Placed(node, size)
    decreases node
  {
    forall k | 0 <= k < |node.children|
      ensures Placed(node.children[k], size)
    {
      PlacedLater(node.children[k], it, size);
    }
  }

  lemma OnTheWayLater(stack: seq<Node>, it: nat, later: nat)
    requires OnTheWay(stack, it) && it <= later
    ensures OnTheWay(stack, later)
  {
    forall k | 0 <= k < |stack| && Placed(stack[k], it)
      ensures Placed(stack[k], later)
    {
      PlacedLater(stack[k], it, later);
    }
  }

  /** Whatever the bytes, every node the parser delivers lies inside the file. */
  lemma {:induction false} ScanPlaces(file: seq<byte>, it: nat, stack: seq<Node>, done: Node)
    requires it <= |file| && OnTheWay(stack, it) && (stack == [] ==> Placed(done, |file|))
    ensures var r := Scan(file, it, stack, done); r.Ok? ==> Placed(r.value, |file|)
    decreases |file| - it
  {
    if it == |file| {
    } else if file[it] == START {
      if stack != [] && it + 1 < |file| {
        var next := stack[..|stack| - 1] + [Closed(stack[|stack| - 1], it)] + [Node(file[it + 1], it + 2, 0, [])];
        OnTheWayLater(stack, it, it + 2);
        ScanPlaces(file, it + 2, next, done);
      }
    } else if file[it] == END {
      if stack != [] {
        var closed := stack[|stack| - 1 := Closed(stack[|stack| - 1], it)];
        assert Placed(closed[|stack| - 1], it);
        OnTheWayLater(stack, it, it + 1);
        PlacedLater(closed[|stack| - 1], it, it + 1);
        PlacedLater(closed[|stack| - 1], it, |file|);
        if |stack| == 1 {
          ScanPlaces(file, it + 1, [], closed[0]);
        } else {
          assert OnTheWay(Popped(closed), it + 1);
          ScanPlaces(file, it + 1, Popped(closed), done);
        }
      }
    } else if file[it] == ESCAPE {
      if it + 1 < |file| {
        OnTheWayLater(stack, it, it + 2);
        ScanPlaces(file, it + 2, stack, done);
      }
    } else {
      OnTheWayLater(stack, it, it + 1);
      ScanPlaces(file, it + 1, stack, done);
    }
  }

  /** What parseTree makes of a file that passed the constructor's check. */
  function Parsed(file: seq<byte>): Result<Node>
    requires |file| > IDENTIFIER_SIZE + 3
  {
    if file[IDENTIFIER_SIZE] != START then InvalidFormat
    else Scan(file, IDENTIFIER_SIZE + 2, [Node(file[IDENTIFIER_SIZE + 1], IDENTIFIER_SIZE + 2, 0, [])],
        Node(0, 0, 0, []))
  }

  /** Parsing what was written gives the tree back. */
  lemma RoundTrip(file: seq<byte>, t: Tree)
    requires |file| > IDENTIFIER_SIZE + 3 && file[IDENTIFIER_SIZE..] == Encoded(t)
    ensures Parsed(file) == Ok(Located(t, IDENTIFIER_SIZE))
    ensures Placed(Located(t, IDENTIFIER_SIZE), |file|) && Meaning(file, Located(t, IDENTIFIER_SIZE)) == t
  {
    var at := IDENTIFIER_SIZE;
    assert file[at..at + |Encoded(t)|] == file[at..];
    LocatedMeans(file, t, at);
    EncodedHolds(file, at, t);
    var root, done := Node(t.typ, at + 2, 0, []), Node(0, 0, 0, []);
    var propsEnd, end := ScanBody(file, at + 2, t, [root], done);
    var filled := WithChildren([root], propsEnd, LocatedAll(t.children, propsEnd));
    assert [] + [root] == [root];
    EndNode(t, at, [], propsEnd, end);
    assert [] + [Located(t, at)] == [Located(t, at)];
    assert Scan(file, end, filled, done) == Scan(file, end + 1, [], Located(t, at));
  }

  // Which files are accepted.

  /** Bytes that mark nothing: plain ones, and any byte behind an escape. */
  predicate Plain(bytes: seq<byte>) {
    bytes == [] ||
    (if bytes[0] == ESCAPE then |bytes| >= 2 && Plain(bytes[2..])
     else bytes[0] != START && bytes[0] != END && Plain(bytes[1..]))
  }

  /** A tree as it may be spelled: properties escaped at will, and anything that marks nothing behind a child. */
  datatype Spelling = Spelling(typ: byte, props: seq<byte>, children: seq<Child>)
  datatype Child = Child(child: Spelling, rest: seq<byte>)

  predicate Plainly(s: Spelling)
    decreases s, 1
  {
    Plain(s.props) && PlainlyAll(s.children)
  }

  predicate PlainlyAll(cs: seq<Child>)
    decreases cs, 0
  {
    cs == [] || (Plainly(cs[0].child) && Plain(cs[0].rest) && PlainlyAll(cs[1..]))
  }

  function Spelled(s: Spelling): seq<byte>
    decreases s, 1
  {
    [START, s.typ] + (s.props + (SpelledAll(s.children) + [END]))
  }

  function SpelledAll(cs: seq<Child>): seq<byte>
    decreases cs, 0
  {
    if cs == [] then [] else Spelled(cs[0].child) + (cs[0].rest + SpelledAll(cs[1..]))
  }

  /** The node for a spelling whose start mark is at `at`: its properties end at its first child, or its end mark. */
  function Found(s: Spelling, at: nat): Node
    decreases s, 1
  {
    var propsEnd := at + 2 + |s.props|;
    Node(s.typ, at + 2, propsEnd, FoundAll(s.children, propsEnd))
  }

  function FoundAll(cs: seq<Child>, at: nat): seq<Node>
    decreases cs, 0
  {
    if cs == [] then []
    else [Found(cs[0].child, at)] + FoundAll(cs[1..], at + |Spelled(cs[0].child)| + |cs[0].rest|)
  }

  /** The bytes are skipped as a whole. */
  lemma {:induction false} ScanPlain(file: seq<byte>, it: nat, bytes: seq<byte>, stack: seq<Node>, done: Node, end: nat)
    requires Plain(bytes) && Holds(file, it, bytes) && end == it + |bytes|
    ensures Scan(file, it, stack, done) == Scan(file, end, stack, done)
    decreases |bytes|
  {
    if bytes != [] {
      var n := if bytes[0] == ESCAPE then 2 else 1;
      assert bytes == bytes[..n] + bytes[n..];
      HoldsSplit(file, it, bytes[..n], bytes[n..]);
      assert file[it..it + n][0] == bytes[0];
      ScanPlain(file, it + n, bytes[n..], stack, done, end);
    }
  }

  lemma {:induction false} ScanSpelling(file: seq<byte>, it: nat, s: Spelling, stack: seq<Node>, done: Node,
                                        next: nat, after: seq<Node>)
    requires Plainly(s) && Holds(file, it, Spelled(s)) && stack != []
    requires next == it + |Spelled(s)| && after == WithChildren(stack, it, [Found(s, it)])
    ensures Scan(file, it, stack, done) == Scan(file, next, after, done)
    decreases s, 1
  {
    var below := stack[..|stack| - 1] + [Closed(stack[|stack| - 1], it)];
    var end, pushed, filled := SpellingEnds(file, it, s, below, done);
    EndFound(s, it, below, end);
    assert Scan(file, it, stack, done) == Scan(file, it + 2, pushed, done);
    ScanEnd(file, end, filled, done);
    PopNode(stack, it, Found(s, it));
  }

  /** From behind the type byte to the end mark, which leaves the finished node on top. */
  lemma {:induction false} SpellingEnds(file: seq<byte>, it: nat, s: Spelling, below: seq<Node>, done: Node)
    returns (end: nat, pushed: seq<Node>, filled: seq<Node>)
    requires Plainly(s) && Holds(file, it, Spelled(s))
    ensures it + 2 <= end == it + |Spelled(s)| - 1 < |file| && file[it] == START && file[it + 1] == s.typ
    ensures file[end] == END
    ensures end == it + 2 + |s.props| + |SpelledAll(s.children)|
    ensures pushed == below + [Node(s.typ, it + 2, 0, [])]
    ensures filled == WithChildren(pushed, it + 2 + |s.props|, FoundAll(s.children, it + 2 + |s.props|))
    ensures Scan(file, it + 2, pushed, done) == Scan(file, end, filled, done)
    decreases s, 0
  {
    var propsEnd := it + 2 + |s.props|;
    end := SpellingHolds(file, it, s);
    pushed := below + [Node(s.typ, it + 2, 0, [])];
    filled := WithChildren(pushed, propsEnd, FoundAll(s.children, propsEnd));
    ScanPlain(file, it + 2, s.props, pushed, done, propsEnd);
    ScanChildren(file, propsEnd, s.children, pushed, done, end, filled);
  }

  lemma SpellingHolds(file: seq<byte>, it: nat, s: Spelling) returns (end: nat)
    requires Holds(file, it, Spelled(s))
    ensures it + 2 <= end == it + |Spelled(s)| - 1 < |file| && file[it] == START && file[it + 1] == s.typ
    ensures file[end] == END && end == it + 2 + |s.props| + |SpelledAll(s.children)|
    ensures Holds(file, it + 2, s.props) && Holds(file, it + 2 + |s.props|, SpelledAll(s.children))
  {
    var kids := SpelledAll(s.children);
    FourParts(file, it, [START, s.typ], s.props, kids, [END]);
    end := it + 2 + |s.props| + |kids|;
  }

  lemma {:induction false} ScanChildren(file: seq<byte>, it: nat, cs: seq<Child>, stack: seq<Node>, done: Node,
                                        end: nat, after: seq<Node>)
    requires PlainlyAll(cs) && Holds(file, it, SpelledAll(cs)) && stack != []
    requires end == it + |SpelledAll(cs)| && after == WithChildren(stack, it, FoundAll(cs, it))
    ensures Scan(file, it, stack, done) == Scan(file, end, after, done)
    decreases cs, 0
  {
    if cs != [] {
      var next := ChildHolds(file, it, cs);
      var first := Found(cs[0].child, it);
      var stack' := WithChildren(stack, it, [first]);
      ScanChild(file, it, cs[0], stack, done, next, stack');
      JoinChildren(stack, it, next, first, FoundAll(cs[1..], next));
      ScanChildren(file, next, cs[1..], stack', done, end, after);
    }
  }

  lemma {:induction false} ScanChild(file: seq<byte>, it: nat, c: Child, stack: seq<Node>, done: Node,
                                     next: nat, after: seq<Node>)
    requires Plainly(c.child) && Plain(c.rest) && stack != []
    requires Holds(file, it, Spelled(c.child)) && Holds(file, it + |Spelled(c.child)|, c.rest)
    requires next == it + |Spelled(c.child)| + |c.rest| && after == WithChildren(stack, it, [Found(c.child, it)])
    ensures Scan(file, it, stack, done) == Scan(file, next, after, done)
    decreases c, 2
  {
    var end := it + |Spelled(c.child)|;
    ScanSpelling(file, it, c.child, stack, done, end, after);
    ScanPlain(file, end, c.rest, after, done, next);
  }

  lemma ChildHolds(file: seq<byte>, it: nat, cs: seq<Child>) returns (next: nat)
    requires cs != [] && Holds(file, it, SpelledAll(cs))
    ensures next == it + |Spelled(cs[0].child)| + |cs[0].rest| && it + |SpelledAll(cs)| == next + |SpelledAll(cs[1..])|
    ensures Holds(file, it, Spelled(cs[0].child)) && Holds(file, it + |Spelled(cs[0].child)|, cs[0].rest)
    ensures Holds(file, next, SpelledAll(cs[1..]))
    ensures FoundAll(cs, it) == [Found(cs[0].child, it)] + FoundAll(cs[1..], next)
  {
    next := it + |Spelled(cs[0].child)| + |cs[0].rest|;
    ThreeParts(file, it, Spelled(cs[0].child), cs[0].rest, SpelledAll(cs[1..]));
  }

  lemma ThreeParts(file: seq<byte>, it: nat, a: seq<byte>, b: seq<byte>, c: seq<byte>)
    requires Holds(file, it, a + (b + c))
    ensures |a + (b + c)| == |a| + |b| + |c|
    ensures Holds(file, it, a) && Holds(file, it + |a|, b) && Holds(file, it + |a| + |b|, c)
  {
    HoldsSplit(file, it, a, b + c);
    HoldsSplit(file, it + |a|, b, c);
  }

  /** What is accepted reads, up to the end mark of the node on top, as plain bytes and children with plain bytes. */
  lemma {:induction false} ScanReads(file: seq<byte>, it: nat, stack: seq<Node>, done: Node)
    returns (rest: seq<byte>, cs: seq<Child>, end: nat, after: seq<Node>)
    requires it <= |file| && stack != [] && Scan(file, it, stack, done).Ok?
    ensures Plain(rest) && PlainlyAll(cs) && it <= end < |file| && file[end] == END
    ensures file[it..end] == rest + SpelledAll(cs)
    ensures after == WithChildren(stack, it + |rest|, FoundAll(cs, it + |rest|))
    ensures Scan(file, it, stack, done) == Scan(file, end, after, done)
    decreases |file| - it
  {
    if file[it] == END {
      rest, cs, end, after := [], [], it, stack;
    } else if file[it] == START {
      rest := [];
      cs, end, after := ReadsChild(file, it, stack, done);
    } else {
      rest, cs, end, after := ReadsPlain(file, it, stack, done);
    }
  }

  lemma {:induction false} ReadsPlain(file: seq<byte>, it: nat, stack: seq<Node>, done: Node)
    returns (rest: seq<byte>, cs: seq<Child>, end: nat, after: seq<Node>)
    requires it < |file| && stack != [] && Scan(file, it, stack, done).Ok? && file[it] != START && file[it] != END
    ensures Plain(rest) && PlainlyAll(cs) && it <= end < |file| && file[end] == END
    ensures file[it..end] == rest + SpelledAll(cs)
    ensures after == WithChildren(stack, it + |rest|, FoundAll(cs, it + |rest|))
    ensures Scan(file, it, stack, done) == Scan(file, end, after, done)
    decreases |file| - it, 0
  {
    var n := if file[it] == ESCAPE then 2 else 1;
    var more;
    more, cs, end, after := ScanReads(file, it + n, stack, done);
    rest := file[it..it + n] + more;
    PlainMore(file, it, n, more, cs, end);
    assert it + |rest| == it + n + |more|;
  }

  lemma PlainMore(file: seq<byte>, it: nat, n: nat, rest: seq<byte>, cs: seq<Child>, end: nat)
    requires it + n <= end <= |file| && it < end && n == (if file[it] == ESCAPE then 2 else 1)
    requires file[it] != START && file[it] != END && Plain(rest) && file[it + n..end] == rest + SpelledAll(cs)
    ensures Plain(file[it..it + n] + rest) && file[it..end] == file[it..it + n] + rest + SpelledAll(cs)
  {
    PlainStep(file[it..it + n], rest);
    JoinStretches(file, it, it + n, end, rest, SpelledAll(cs));
  }

  lemma PlainStep(head: seq<byte>, rest: seq<byte>)
    requires Plain(rest) && head != [] && |head| == (if head[0] == ESCAPE then 2 else 1)
    requires head[0] != START && head[0] != END
    ensures Plain(head + rest)
  {
    assert (head + rest)[|head|..] == rest;
  }

  lemma JoinStretches(file: seq<byte>, from: nat, mid: nat, to: nat, a: seq<byte>, b: seq<byte>)
    requires from <= mid <= to <= |file| && file[mid..to] == a + b
    ensures file[from..to] == file[from..mid] + a + b
  {
    assert file[from..to] == file[from..mid] + file[mid..to];
  }

  lemma {:induction false} ReadsChild(file: seq<byte>, it: nat, stack: seq<Node>, done: Node)
    returns (cs: seq<Child>, end: nat, after: seq<Node>)
    requires it < |file| && file[it] == START && stack != [] && Scan(file, it, stack, done).Ok?
    ensures PlainlyAll(cs) && it <= end < |file| && file[end] == END
    ensures file[it..end] == SpelledAll(cs)
    ensures after == WithChildren(stack, it, FoundAll(cs, it))
            && Scan(file, it, stack, done) == Scan(file, end, after, done)
    decreases |file| - it, 1
  {
    var below := stack[..|stack| - 1] + [Closed(stack[|stack| - 1], it)];
    var props, inner, close, filled := ScanReads(file, it + 2, below + [Node(file[it + 1], it + 2, 0, [])], done);
    var child := Spelling(file[it + 1], props, inner);
    ReadSpelling(file, it, child, close);
    cs, end, after := ReadsOn(file, it, stack, done, child);
  }

  /** What follows a child is read on. */
  lemma {:induction false} ReadsOn(file: seq<byte>, it: nat, stack: seq<Node>, done: Node, child: Spelling)
    returns (cs: seq<Child>, end: nat, after: seq<Node>)
    requires Plainly(child) && Holds(file, it, Spelled(child)) && |Spelled(child)| > 0
    requires stack != [] && Scan(file, it, stack, done).Ok?
    ensures PlainlyAll(cs) && it <= end < |file| && file[end] == END
    ensures file[it..end] == SpelledAll(cs)
    ensures after == WithChildren(stack, it, FoundAll(cs, it))
            && Scan(file, it, stack, done) == Scan(file, end, after, done)
    decreases |file| - it, 0
  {
    var next, one := it + |Spelled(child)|, WithChildren(stack, it, [Found(child, it)]);
    ScanSpelling(file, it, child, stack, done, next, one);
    var rest, more, filled;
    rest, more, end, filled := ScanReads(file, next, one, done);
    cs := ReadChildren(file, it, child, next - 1, rest, more, end);
    HoldsStretch(file, it, end, SpelledAll(cs));
    after := WithChildren(stack, it, FoundAll(cs, it));
    ScanChildren(file, it, cs, stack, done, end, after);
  }

  lemma HoldsStretch(file: seq<byte>, it: nat, end: nat, bytes: seq<byte>)
    requires it <= end <= |file| && file[it..end] == bytes
    ensures Holds(file, it, bytes) && it + |bytes| == end
  {
  }

  lemma ReadSpelling(file: seq<byte>, it: nat, s: Spelling, close: nat)
    requires it + 2 <= close < |file| && file[it] == START && file[it + 1] == s.typ && file[close] == END
    requires file[it + 2..close] == s.props + SpelledAll(s.children)
    ensures |Spelled(s)| == close + 1 - it && Holds(file, it, Spelled(s))
  {
    var body := s.props + SpelledAll(s.children);
    assert file[it..close + 1] == [START, s.typ] + (body + [END]);
    assert body + [END] == s.props + (SpelledAll(s.children) + [END]);
  }

  lemma ReadChildren(file: seq<byte>, it: nat, child: Spelling, close: nat, rest: seq<byte>, more: seq<Child>, end: nat)
    returns (cs: seq<Child>)
    requires it <= close < end <= |file| && |Spelled(child)| == close + 1 - it && Holds(file, it, Spelled(child))
    requires file[close + 1..end] == rest + SpelledAll(more)
    requires Plainly(child) && Plain(rest) && PlainlyAll(more)
    ensures PlainlyAll(cs) && file[it..end] == SpelledAll(cs)
  {
    cs := [Child(child, rest)] + more;
    assert cs[1..] == more;
    JoinStretches(file, it, close + 1, end, rest, SpelledAll(more));
    assert Spelled(child) + rest + SpelledAll(more) == Spelled(child) + (rest + SpelledAll(more));
  }

  /** Behind the root nothing may be marked. */
  lemma {:induction false} ScanBehind(file: seq<byte>, it: nat, done: Node)
    requires it <= |file|
    ensures Scan(file, it, [], done) == if Plain(file[it..]) then Ok(done) else InvalidFormat
    decreases |file| - it
  {
    if it < |file| {
      if file[it] == ESCAPE {
        if it + 1 < |file| {
          assert file[it..][2..] == file[it + 2..];
          ScanBehind(file, it + 2, done);
        }
      } else if file[it] != START && file[it] != END {
        assert file[it..][1..] == file[it + 1..];
        ScanBehind(file, it + 1, done);
      }
    }
  }

  /** Behind its identifier the file spells a tree, and nothing but bytes that mark nothing follow. */
  ghost predicate Spells(file: seq<byte>, s: Spelling) {
    && |file| >= IDENTIFIER_SIZE + |Spelled(s)| && Plainly(s)
    && file[IDENTIFIER_SIZE..IDENTIFIER_SIZE + |Spelled(s)|] == Spelled(s)
    && Plain(file[IDENTIFIER_SIZE + |Spelled(s)|..])
  }

  /** A file that spells a tree is accepted, as that tree. */
  lemma SpelledIsParsed(file: seq<byte>, s: Spelling)
    requires |file| > IDENTIFIER_SIZE + 3 && Spells(file, s)
    ensures Parsed(file) == Ok(Found(s, IDENTIFIER_SIZE))
  {
    var at, done := IDENTIFIER_SIZE, Node(0, 0, 0, []);
    var end, pushed, filled := SpellingEnds(file, at, s, [], done);
    EndFound(s, at, [], end);
    assert [] + [Node(s.typ, at + 2, 0, [])] == [Node(s.typ, at + 2, 0, [])];
    assert [] + [Found(s, at)] == [Found(s, at)];
    ScanBehind(file, end + 1, Found(s, at));
  }

  /** What is accepted spells a tree. */
  lemma ParsedSpells(file: seq<byte>) returns (s: Spelling)
    requires |file| > IDENTIFIER_SIZE + 3 && Parsed(file).Ok?
    ensures Spells(file, s)
  {
    var at, done := IDENTIFIER_SIZE, Node(0, 0, 0, []);
    var root := Node(file[at + 1], at + 2, 0, []);
    var props, cs, end, filled := ScanReads(file, at + 2, [root], done);
    s := Spelling(file[at + 1], props, cs);
    ReadSpelling(file, at, s, end);
    assert at + |Spelled(s)| == end + 1;
    assert |filled| == 1;
    ScanBehind(file, end + 1, filled[0 := Closed(filled[0], end)][0]);
  }

  /** A file is accepted exactly if it spells a tree. */
  lemma AcceptedExactly(file: seq<byte>)
    requires |file| > IDENTIFIER_SIZE + 3
    ensures Parsed(file).Ok? <==> exists s :: Spells(file, s)
  {
    if Parsed(file).Ok? {
      var s := ParsedSpells(file);
    }
    if s :| Spells(file, s) {
      SpelledIsParsed(file, s);
    }
  }

  // Cut off files.

  /** The file ends inside `bytes`, which begin at `it`. */
  predicate CutOff(file: seq<byte>, it: nat, bytes: seq<byte>) {
    it <= |file| < it + |bytes| && file[it..] == bytes[..|file| - it]
  }

  /** The file ends in the one part or in the other. */
  lemma CutSplit(file: seq<byte>, it: nat, a: seq<byte>, b: seq<byte>)
    requires CutOff(file, it, a + b)
    ensures CutOff(file, it, a) || (Holds(file, it, a) && CutOff(file, it + |a|, b))
  {
    var n := |file| - it;
    if n < |a| {
      assert (a + b)[..n] == a[..n];
    } else {
      assert (a + b)[..n] == a + b[..n - |a|];
      assert file[it..it + |a|] == file[it..][..|a|];
      assert file[it + |a|..] == file[it..][|a|..];
    }
  }

  lemma {:induction false} CutProps(file: seq<byte>, it: nat, props: seq<byte>, stack: seq<Node>, done: Node)
    requires CutOff(file, it, Escaped(props)) && stack != []
    ensures Scan(file, it, stack, done) == InvalidFormat
    decreases props
  {
    var head := if props[0] >= ESCAPE then [ESCAPE, props[0]] else [props[0]];
    CutSplit(file, it, head, Escaped(props[1..]));
    if it < |file| {
      assert file[it] == file[it..][0] == head[0];
      if it + |head| <= |file| {
        CutProps(file, it + |head|, props[1..], stack, done);
      }
    }
  }

  /** A node that is cut off is never accepted. */
  lemma {:induction false} CutNode(file: seq<byte>, it: nat, t: Tree, stack: seq<Node>, done: Node)
    requires CutOff(file, it, Encoded(t)) && stack != []
    ensures Scan(file, it, stack, done) == InvalidFormat
    decreases t, 1
  {
    assert Encoded(t) == [START, t.typ] + Body(t);
    CutSplit(file, it, [START, t.typ], Body(t));
    if it < |file| {
      assert file[it] == file[it..][0] == START;
      if it + 2 <= |file| {
        assert file[it..it + 2][1] == t.typ;
        var below := stack[..|stack| - 1] + [Closed(stack[|stack| - 1], it)];
        CutBody(file, it + 2, t, below + [Node(t.typ, it + 2, 0, [])], done);
      }
    }
  }

  lemma {:induction false} CutBody(file: seq<byte>, it: nat, t: Tree, stack: seq<Node>, done: Node)
    requires CutOff(file, it, Body(t)) && stack != []
    ensures Scan(file, it, stack, done) == InvalidFormat
    decreases t, 0
  {
    var props, kids := Escaped(t.props), EncodedAll(t.children);
    assert Body(t) == props + (kids + [END]);
    CutSplit(file, it, props, kids + [END]);
    if CutOff(file, it, props) {
      CutProps(file, it, t.props, stack, done);
    } else {
      ScanProps(file, it, t.props, stack, done);
      CutSplit(file, it + |props|, kids, [END]);
      if CutOff(file, it + |props|, kids) {
        CutNodes(file, it + |props|, t.children, stack, done);
      } else {
        CutBehind(file, it + |props|, t.children, stack, done);
      }
    }
  }

  /** The file ends behind the last child. */
  lemma CutBehind(file: seq<byte>, it: nat, ts: seq<Tree>, stack: seq<Node>, done: Node)
    requires Holds(file, it, EncodedAll(ts)) && |file| == it + |EncodedAll(ts)| && stack != []
    ensures Scan(file, it, stack, done) == InvalidFormat
  {
    ScanNodes(file, it, ts, stack, done);
  }

  lemma {:induction false} CutNodes(file: seq<byte>, it: nat, ts: seq<Tree>, stack: seq<Node>, done: Node)
    requires CutOff(file, it, EncodedAll(ts)) && stack != []
    ensures Scan(file, it, stack, done) == InvalidFormat
    decreases ts, 0
  {
    CutSplit(file, it, Encoded(ts[0]), EncodedAll(ts[1..]));
    if CutOff(file, it, Encoded(ts[0])) {
      CutNode(file, it, ts[0], stack, done);
    } else {
      ScanNode(file, it, ts[0], stack, done);
      CutNodes(file, it + |Encoded(ts[0])|, ts[1..], WithChildren(stack, it, [Located(ts[0], it)]), done);
    }
  }

  /** A written file that is cut off anywhere is refused. */
  lemma CutIsRefused(file: seq<byte>, t: Tree)
    requires |file| > IDENTIFIER_SIZE + 3 && CutOff(file, IDENTIFIER_SIZE, Encoded(t))
    ensures Parsed(file) == InvalidFormat
  {
    var at := IDENTIFIER_SIZE;
    assert Encoded(t) == [START, t.typ] + Body(t);
    CutSplit(file, at, [START, t.typ], Body(t));
    assert file[at] == file[at..at + 2][0] && file[at + 1] == file[at..at + 2][1];
    CutBody(file, at + 2, t, [Node(t.typ, at + 2, 0, [])], Node(0, 0, 0, []));
  }

  /** Every tree but the smallest makes a file long enough to be opened: a lone node without properties does not. */
  lemma LongEnough(identifier: seq<byte>, t: Tree)
    requires |identifier| == IDENTIFIER_SIZE
    ensures |identifier + Encoded(t)| > IDENTIFIER_SIZE + 3 <==> t.props != [] || t.children != []
  {
    if t.props != [] {
      assert |Escaped(t.props)| > 0;
    }
    if t.children != [] {
      assert |Encoded(t.children[0])| > 0;
      assert |EncodedAll(t.children)| == |Encoded(t.children[0])| + |EncodedAll(t.children[1..])|;
    }
  }

  /** Nothing but trees inside the file comes out, whatever the bytes. */
  lemma ParsedIsPlaced(file: seq<byte>)
    requires |file| > IDENTIFIER_SIZE + 3
    ensures Parsed(file).Ok? ==> Placed(Parsed(file).value, |file|)
  {
    if file[IDENTIFIER_SIZE] == START {
      ScanPlaces(file, IDENTIFIER_SIZE + 2, [Node(file[IDENTIFIER_SIZE + 1], IDENTIFIER_SIZE + 2, 0, [])],
          Node(0, 0, 0, []));
    }
  }

  /** One byte is dropped or kept. */
  lemma UnescapedStep(bytes: seq<byte>, rest: seq<byte>, lastEscaped: bool, buffer: seq<byte>)
    requires bytes != [] && rest == bytes[1..]
    ensures var escape := bytes[0] == ESCAPE && !lastEscaped;
            buffer + Unescaped(bytes, lastEscaped)
                == (if escape then buffer else buffer + [bytes[0]]) + Unescaped(rest, escape)
  {
  }

  class Loader {
    const fileContents: seq<byte>
    var root: Node
    var propBuffer: seq<byte>

    constructor (fileContents: seq<byte>)
      requires |fileContents| > IDENTIFIER_SIZE + 3
      ensures this.fileContents == fileContents
    {
      this.fileContents := fileContents;
      root := Node(0, 0, 0, []);
      propBuffer := [];
    }

    /** Opening a file: it must be longer than the smallest file and carry the identifier, or none. */
    static method Open(fileContents: seq<byte>, acceptedIdentifier: seq<byte>) returns (r: Result<Loader>)
      requires |acceptedIdentifier| == IDENTIFIER_SIZE
      ensures r.Ok? <==> |fileContents| > IDENTIFIER_SIZE + 3 &&
                         (fileContents[..IDENTIFIER_SIZE] == acceptedIdentifier
                             || fileContents[..IDENTIFIER_SIZE] == [0, 0, 0, 0])
      ensures r.Ok? ==> fresh(r.value) && r.value.fileContents == fileContents
    {
      if |fileContents| <= IDENTIFIER_SIZE + 3 {
        return InvalidFormat;
      }
      var fileIdentifier := fileContents[..IDENTIFIER_SIZE];
      if fileIdentifier != acceptedIdentifier && fileIdentifier != [0, 0, 0, 0] {
        return InvalidFormat;
      }
      var loader := new Loader(fileContents);
      return Ok(loader);
    }

    method ParseTree() returns (r: Result<Node>)
      requires |fileContents| > IDENTIFIER_SIZE + 3
      modifies this`root
      ensures r == Parsed(fileContents)
      ensures r.Ok? ==> root == r.value && Placed(root, |fileContents|)
      ensures forall t :: fileContents[IDENTIFIER_SIZE..] == Encoded(t) ==>
                r.Ok? && Placed(r.value, |fileContents|) && Meaning(fileContents, r.value) == t
      ensures r.Ok? <==> exists s :: Spells(fileContents, s)
      ensures forall s :: Spells(fileContents, s) ==> r == Ok(Found(s, IDENTIFIER_SIZE))
      ensures forall t :: CutOff(fileContents, IDENTIFIER_SIZE, Encoded(t)) ==> r == InvalidFormat
    {
      ParsedIsPlaced(fileContents);
      AcceptedExactly(fileContents);
      forall s | Spells(fileContents, s)
        ensures Parsed(fileContents) == Ok(Found(s, IDENTIFIER_SIZE))
      {
        SpelledIsParsed(fileContents, s);
      }
      forall t | CutOff(fileContents, IDENTIFIER_SIZE, Encoded(t))
        ensures Parsed(fileContents) == InvalidFormat
      {
        CutIsRefused(fileContents, t);
      }
      forall t | fileContents[IDENTIFIER_SIZE..] == Encoded(t)
        ensures Parsed(fileContents).Ok? && Placed(Parsed(fileContents).value, |fileContents|) &&
                Meaning(fileContents, Parsed(fileContents).value) == t
      {
        RoundTrip(fileContents, t);
      }
      var it := IDENTIFIER_SIZE;
      if fileContents[it] != START {
        return InvalidFormat;
      }
      var parseStack := [Node(fileContents[it + 1], it + 2, 0, [])];
      var done := Node(0, 0, 0, []);
      it := it + 2;
      while it != |fileContents|
        invariant it <= |fileContents|
        invariant Scan(fileContents, it, parseStack, done) == Parsed(fileContents)
        decreases |fileContents| - it
      {
        if fileContents[it] == START {
          if parseStack == [] {
            return InvalidFormat;
          }
          parseStack := parseStack[..|parseStack| - 1] + [Closed(parseStack[|parseStack| - 1], it)];
          it := it + 1;
          if it == |fileContents| {
            return InvalidFormat;
          }
          parseStack := parseStack + [Node(fileContents[it], it + 1, 0, [])];
        } else if fileContents[it] == END {
          if parseStack == [] {
            return InvalidFormat;
          }
          parseStack := parseStack[|parseStack| - 1 := Closed(parseStack[|parseStack| - 1], it)];
          if |parseStack| == 1 {
            done := parseStack[0];
            parseStack := [];
          } else {
            parseStack := Popped(parseStack);
          }
        } else if fileContents[it] == ESCAPE {
          it := it + 1;
          if it == |fileContents| {
            return InvalidFormat;
          }
        }
        it := it + 1;
      }
      if parseStack != [] {
        return InvalidFormat;
      }
      root := done;
      return Ok(root);
    }

    /** The unescaped properties of a node; None when it has none. */
    method GetProps(node: Node) returns (props: Option<seq<byte>>)
      requires node.propsBegin <= node.propsEnd <= |fileContents|
      modifies this`propBuffer
      ensures node.propsBegin == node.propsEnd ==> props.None?
      ensures node.propsBegin < node.propsEnd ==>
                props == Some(Unescaped(fileContents[node.propsBegin..node.propsEnd], false))
                    && propBuffer == props.value
    {
      if node.propsEnd == node.propsBegin {
        return None;
      }
      propBuffer := [];
      var lastEscaped := false;
      var i := node.propsBegin;
      while i < node.propsEnd
        invariant node.propsBegin <= i <= node.propsEnd
        invariant propBuffer + Unescaped(fileContents[i..node.propsEnd], lastEscaped) ==
                  Unescaped(fileContents[node.propsBegin..node.propsEnd], false)
      {
        UnescapedStep(fileContents[i..node.propsEnd], fileContents[i + 1..node.propsEnd], lastEscaped, propBuffer);
        lastEscaped := fileContents[i] == ESCAPE && !lastEscaped;
        if !lastEscaped {
          propBuffer := propBuffer + [fileContents[i]];
        }
        i := i + 1;
      }
      assert propBuffer + [] == propBuffer;
      return Some(propBuffer);
    }
  }
}
