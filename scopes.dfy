/** One region of the writer (style markup or element markup): a stack of
    open nodes, innermost last, and the finished top-level nodes in the
    order they were finished. Opening a node with a block pushes it; the
    end of the block closes it, making it the last child of the node
    below it, or the last finished root when nothing is open. */
module Scopes {
  import opened Values
  import opened AttrLists
  import opened Markup

  /** An open node. `wrap` marks a worksheet: its content goes inside a
      Table element when it closes. */
  datatype Frame = Frame(node: Node, wrap: bool)

  datatype Scope = Scope(open: seq<Frame>, done: seq<Node>)

  const Empty: Scope := Scope([], [])

  ghost predicate ScopeOk(s: Scope)
  {
    && (forall i :: 0 <= i < |s.open| ==> WellFormed(s.open[i].node))
    && (forall i :: 0 <= i < |s.done| ==> WellFormed(s.done[i]))
  }

  /** The node a frame becomes when it closes: a worksheet holds one Table
      carrying the content and the block flag it was opened with, and
      always gets a closing tag itself. */
  function Finish(f: Frame): (n: Node)
    ensures n.name == f.node.name && n.attrs == f.node.attrs
    ensures !f.wrap ==> n == f.node
    ensures f.wrap ==> n.block && n.children == [Element(Node("Table", [], f.node.children, f.node.block))]
    ensures WellFormed(f.node) ==> WellFormed(n)
  {
    if f.wrap then
      var table := Node("Table", [], f.node.children, f.node.block);
      assert WellFormed(f.node) ==> AllWellFormed([Element(table)]) by {
        if WellFormed(f.node) {
          assert Sorted(table.attrs) && AllWellFormed(table.children);
          assert ContentWellFormed(Element(table));
          assert [Element(table)][1..] == [];
        }
      }
      f.node.(children := [Element(table)], block := true)
    else f.node
  }

  /** A child added after the existing children; nothing else changes. */
  function AddChild(f: Frame, c: Content): (r: Frame)
    ensures r.node.children == f.node.children + [c]
    ensures r.wrap == f.wrap && r.node.name == f.node.name && r.node.attrs == f.node.attrs
    ensures r.node.block == f.node.block
    ensures WellFormed(f.node) && ContentWellFormed(c) ==> WellFormed(r.node)
  {
    AllWellFormedAppend(f.node.children, c);
    f.(node := f.node.(children := f.node.children + [c]))
  }

  /** A finished node goes below the innermost open node, as its last
      child, or becomes the last root when nothing is open. */
  function Attach(s: Scope, n: Node): (r: Scope)
    ensures |r.open| == |s.open|
    ensures s.open == [] ==> r.done == s.done + [n]
    ensures s.open != [] ==> r.done == s.done && r.open[..|s.open| - 1] == s.open[..|s.open| - 1]
    ensures s.open != [] ==> r.open[|s.open| - 1] == AddChild(s.open[|s.open| - 1], Element(n))
    ensures ScopeOk(s) && WellFormed(n) ==> ScopeOk(r)
  {
    if s.open == [] then s.(done := s.done + [n])
    else
      var k := |s.open| - 1;
      s.(open := s.open[..k] + [AddChild(s.open[k], Element(n))])
  }

  function Push(s: Scope, f: Frame): (r: Scope)
    ensures ScopeOk(s) && WellFormed(f.node) ==> ScopeOk(r)
  {
    s.(open := s.open + [f])
  }

  /** Ends the innermost open node. */
  function CloseTop(s: Scope): (r: Scope)
    requires s.open != []
    ensures |r.open| == |s.open| - 1
    ensures |r.done| >= |s.done| && r.done[..|s.done|] == s.done
    ensures ScopeOk(s) ==> ScopeOk(r)
  {
    var k := |s.open| - 1;
    Attach(s.(open := s.open[..k]), Finish(s.open[k]))
  }

  /** Ending a block: an error when no node is open. */
  function Close(s: Scope): (r: Result<Scope>)
    ensures r.Err? <==> s.open == []
    ensures r.Err? ==> r.error == ScopeUnderflow
    ensures r.Ok? ==> |r.value.open| == |s.open| - 1
  {
    if s.open == [] then Err(ScopeUnderflow) else Ok(CloseTop(s))
  }

  /** Opening a node: with a block it stays open for what the block does;
      without one it is closed at once. */
  function Enter(s: Scope, f: Frame, block: bool): (r: Scope)
    ensures block ==> r.open == s.open + [f] && r.done == s.done
    ensures !block ==> |r.open| == |s.open|
    ensures ScopeOk(s) && WellFormed(f.node) ==> ScopeOk(r)
  {
    if block then Push(s, f) else CloseTop(Push(s, f))
  }

  /** Without a block, opening a node just places the finished node where
      its content would have gone. */
  lemma EnterWithoutBlock(s: Scope, f: Frame)
    ensures Enter(s, f, false) == Attach(s, Finish(f))
  {
    assert (s.open + [f])[..|s.open|] == s.open;
  }

  /** Closes every open node, innermost first. */
  function Drain(s: Scope): (r: Scope)
    ensures r.open == []
    ensures s.open == [] ==> r == s
    ensures |r.done| >= |s.done| && r.done[..|s.done|] == s.done
    ensures ScopeOk(s) ==> ScopeOk(r)
    decreases |s.open|
  {
    if s.open == [] then s
    else
      var c := CloseTop(s);
      var r := Drain(c);
      assert r.done[..|s.done|] == r.done[..|c.done|][..|s.done|];
      r
  }

  /** Closing the innermost node does not change what draining gives. */
  lemma DrainStep(s: Scope)
    requires s.open != []
    ensures Drain(CloseTop(s)) == Drain(s)
  {
  }

  /** The reference reading of an open stack: each frame finished with the
      next one, finished, as its last child. */
  function Nest(open: seq<Frame>): Node
    requires open != []
    decreases |open|
  {
    if |open| == 1 then Finish(open[0])
    else Finish(AddChild(open[0], Element(Nest(open[1..]))))
  }

  /** The stack after its innermost frame was closed into the one below. */
  function Collapse(open: seq<Frame>): (r: seq<Frame>)
    requires |open| >= 2
    ensures |r| == |open| - 1
  {
    var k := |open| - 1;
    open[..k - 1] + [AddChild(open[k - 1], Element(Finish(open[k])))]
  }

  lemma {:induction false} NestCollapse(open: seq<Frame>)
    requires |open| >= 2
    ensures Nest(Collapse(open)) == Nest(open)
    decreases |open|
  {
    if |open| > 2 {
      var c := Collapse(open);
      assert c[0] == open[0];
      assert c[1..] == Collapse(open[1..]);
      NestCollapse(open[1..]);
    }
  }

  /** Draining a region leaves one more root: the whole open stack, each
      node nested in the one opened before it. */
  lemma {:induction false} DrainNests(s: Scope)
    requires s.open != []
    ensures Drain(s) == Scope([], s.done + [Nest(s.open)])
    decreases |s.open|
  {
    var c := CloseTop(s);
    if |s.open| == 1 {
      assert c == Scope([], s.done + [Finish(s.open[0])]);
    } else {
      assert c.open == Collapse(s.open);
      DrainNests(c);
      NestCollapse(s.open);
    }
  }

  /** Sets an attribute on the innermost open node. */
  function SetTop(s: Scope, name: string, text: string): (r: Result<Scope>)
    requires ScopeOk(s)
    ensures r.Err? <==> s.open == []
    ensures r.Err? ==> r.error == ScopeUnderflow
    ensures r.Ok? ==> ScopeOk(r.value) && r.value.done == s.done && |r.value.open| == |s.open|
    ensures r.Ok? ==> r.value.open[..|s.open| - 1] == s.open[..|s.open| - 1]
    ensures r.Ok? ==>
      var f, g := s.open[|s.open| - 1], r.value.open[|s.open| - 1];
      && g.wrap == f.wrap && g.node.name == f.node.name
      && g.node.children == f.node.children && g.node.block == f.node.block
      && forall x :: Lookup(g.node.attrs, x) == if x == name then Some(text) else Lookup(f.node.attrs, x)
  {
    if s.open == [] then Err(ScopeUnderflow)
    else
      var k := |s.open| - 1;
      var f := s.open[k];
      var g := f.(node := f.node.(attrs := Put(f.node.attrs, name, text)));
      Ok(s.(open := s.open[..k] + [g]))
  }

  /** A region's markup only grows at its end: closing nodes never alters
      the text of roots already finished. */
  lemma RenderGrowsAtEnd(s: Scope, depth: nat, indent: nat)
    requires s.open != []
    ensures RenderAll(Drain(s).done, depth, indent)
      == RenderAll(s.done, depth, indent) + RenderNode(Nest(s.open), depth, indent)
  {
    DrainNests(s);
    RenderAllAppend(s.done, Nest(s.open), depth, indent);
  }
}
