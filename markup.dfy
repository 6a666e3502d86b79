/** The markup tree the writer builds and its text form. A node has a
    name, a sorted attribute list, children (nodes or already-escaped
    text) and whether it was opened with a nested block. Rendering is
    compact when the indent width is 0, else each nested node starts on a
    new line indented `indent` spaces per level. */
module Markup {
  import opened Values
  import opened AttrLists
  import opened Escaping

  datatype Node = Node(name: string, attrs: Attrs, children: seq<Content>, block: bool)

  /** A child: a nested node, or text that has already been escaped. */
  datatype Content = Element(node: Node) | Text(text: string)

  /** Text that holds none of the characters escaping removes. */
  predicate IsEscaped(t: string)
  {
    forall i :: 0 <= i < |t| ==> !IsUnsafe(t[i])
  }

  /** Sorted attributes and escaped text, all the way down. */
  ghost predicate WellFormed(n: Node)
    decreases n, 1
  {
    Sorted(n.attrs) && AllWellFormed(n.children)
  }

  ghost predicate AllWellFormed(cs: seq<Content>)
    decreases cs, 0
  {
    cs == [] || (ContentWellFormed(cs[0]) && AllWellFormed(cs[1..]))
  }

  ghost predicate ContentWellFormed(c: Content)
    decreases c, 2
  {
    match c
    case Element(n) => WellFormed(n)
    case Text(t) => IsEscaped(t)
  }

  lemma {:induction false} AllWellFormedAppend(cs: seq<Content>, c: Content)
    ensures AllWellFormed(cs) && ContentWellFormed(c) ==> AllWellFormed(cs + [c])
    decreases |cs|
  {
    if !(AllWellFormed(cs) && ContentWellFormed(c)) {
    } else if cs != [] {
      assert (cs + [c])[1..] == cs[1..] + [c];
      AllWellFormedAppend(cs[1..], c);
    } else {
      assert ([] + [c])[1..] == [];
    }
  }

  // ------------------------------------------------------------- rendering

  function Spaces(k: nat): (r: string)
    ensures |r| == k && forall i :: 0 <= i < k ==> r[i] == ' '
  {
    if k == 0 then "" else " " + Spaces(k - 1)
  }

  /** What precedes an opening tag at `depth`: nothing in compact form or at
      the root, else a new line and the indentation of that depth. */
  function OpenIndent(depth: nat, indent: nat): string
  {
    if indent == 0 || depth == 0 then "" else "\n" + Spaces(depth * indent)
  }

  /** What precedes the closing tag of a node with nested nodes. */
  function CloseIndent(depth: nat, indent: nat): string
  {
    if indent == 0 then "" else "\n" + Spaces(depth * indent)
  }

  /** ` name="text"` for each attribute, in list order. Attribute texts are
      written as they are. */
  function RenderAttrs(a: Attrs): string
  {
    if a == [] then "" else AttrMarkup(a[0].0, a[0].1) + RenderAttrs(a[1..])
  }

  function AttrMarkup(name: string, text: string): string
  {
    " " + name + "=\"" + text + "\""
  }

  predicate HasElement(cs: seq<Content>)
  {
    exists i :: 0 <= i < |cs| && cs[i].Element?
  }

  /** A node with neither children nor a block closes itself. */
  predicate SelfCloses(n: Node)
  {
    n.children == [] && !n.block
  }

  function RenderNode(n: Node, depth: nat, indent: nat): string
    decreases n, 2
  {
    OpenTag(n, depth, indent) + if SelfCloses(n) then " />" else RenderBody(n, depth, indent) + CloseTag(n.name)
  }

  /** The opening tag up to, not including, its final `>` or ` />`. */
  function OpenTag(n: Node, depth: nat, indent: nat): string
  {
    OpenIndent(depth, indent) + "<" + n.name + RenderAttrs(n.attrs)
  }

  function CloseTag(name: string): string
  {
    "</" + name + ">"
  }

  /** From the `>` of the opening tag to the closing tag. */
  function RenderBody(n: Node, depth: nat, indent: nat): string
    decreases n, 1
  {
    ">" + RenderContents(n.children, depth + 1, indent) +
    (if HasElement(n.children) then CloseIndent(depth, indent) else "")
  }

  function RenderContents(cs: seq<Content>, depth: nat, indent: nat): string
    decreases cs, 0
  {
    if cs == [] then "" else RenderContent(cs[0], depth, indent) + RenderContents(cs[1..], depth, indent)
  }

  function RenderContent(c: Content, depth: nat, indent: nat): string
    decreases c, 3
  {
    match c
    case Element(n) => RenderNode(n, depth, indent)
    case Text(t) => t
  }

  /** Nodes rendered side by side, as a region's markup is. */
  function RenderAll(ns: seq<Node>, depth: nat, indent: nat): string
  {
    if ns == [] then "" else RenderNode(ns[0], depth, indent) + RenderAll(ns[1..], depth, indent)
  }

  function Elements(ns: seq<Node>): (r: seq<Content>)
    ensures |r| == |ns| && forall i :: 0 <= i < |ns| ==> r[i] == Element(ns[i])
  {
    if ns == [] then [] else [Element(ns[0])] + Elements(ns[1..])
  }

  function EndsWith(s: string, suffix: string): bool
  {
    |suffix| <= |s| && s[|s| - |suffix|..] == suffix
  }

  /** A name that can head a tag: not empty and not ending in '/'. */
  predicate IsTagName(name: string)
  {
    name != [] && name[|name| - 1] != '/'
  }

  // ---------------------------------------------------------------- lemmas

  /** A rendered node ends in " />" exactly when it has no children and was
      opened without a block; with a block it always gets a closing tag. */
  lemma SelfClosingIff(n: Node, depth: nat, indent: nat)
    requires IsTagName(n.name)
    ensures EndsWith(RenderNode(n, depth, indent), " />") <==> SelfCloses(n)
  {
    var open := OpenTag(n, depth, indent);
    if SelfCloses(n) {
      EndsWithAppend(open, " />");
    } else {
      var close := CloseTag(n.name);
      var body := RenderBody(n, depth, indent);
      assert RenderNode(n, depth, indent) == (open + body) + close;
      EndsWithAppend(open + body, close);
      assert close[|close| - 2] == n.name[|n.name| - 1];
      if EndsWith(open + body + close, " />") {
        SecondLast(open + body, close, " />");
      }
    }
  }

  /** A node's text starts with its indentation and `<name attrs`, and
      ends in " />" when it closes itself or in its closing tag otherwise. */
  lemma RenderNodeTags(n: Node, depth: nat, indent: nat)
    ensures StartsWith(RenderNode(n, depth, indent), OpenTag(n, depth, indent))
    ensures SelfCloses(n) ==> EndsWith(RenderNode(n, depth, indent), " />")
    ensures !SelfCloses(n) ==> EndsWith(RenderNode(n, depth, indent), CloseTag(n.name))
  {
    var open := OpenTag(n, depth, indent);
    if SelfCloses(n) {
      StartsWithAppend(open, " />");
      EndsWithAppend(open, " />");
    } else {
      var body, close := RenderBody(n, depth, indent), CloseTag(n.name);
      StartsWithAppend(open, body + close);
      Associate(open, body, close);
      EndsWithAppend(open + body, close);
    }
  }

  lemma StartsWithAppend(head: string, tail: string)
    ensures StartsWith(head + tail, head)
  {
    assert (head + tail)[..|head|] == head;
  }

  /** Attributes are written in list order: one added last is written last. */
  lemma {:induction false} RenderAttrsAppend(a: Attrs, name: string, text: string)
    ensures RenderAttrs(a + [(name, text)]) == RenderAttrs(a) + AttrMarkup(name, text)
    decreases |a|
  {
    if a == [] {
      assert [] + [(name, text)] == [(name, text)];
      assert RenderAttrs([(name, text)]) == AttrMarkup(name, text) + RenderAttrs([]);
    } else {
      assert (a + [(name, text)])[0] == a[0];
      assert (a + [(name, text)])[1..] == a[1..] + [(name, text)];
      RenderAttrsAppend(a[1..], name, text);
    }
  }

  lemma EndsWithAppend(head: string, tail: string)
    ensures EndsWith(head + tail, tail)
  {
    assert (head + tail)[|head + tail| - |tail|..] == tail;
  }

  /** Two suffixes of one text agree in their second-last character. */
  lemma SecondLast(head: string, tail: string, other: string)
    requires |tail| >= 2 && |other| >= 2
    requires EndsWith(head + tail, other)
    ensures tail[|tail| - 2] == other[|other| - 2]
  {
    var s := head + tail;
    assert s[|s| - 2] == tail[|tail| - 2];
    assert s[|s| - |other|..][|other| - 2] == s[|s| - 2];
  }

  /** Rendering children one after another: a child added last renders
      last, so children come out in the order they were added. */
  lemma {:induction false} RenderContentsAppend(cs: seq<Content>, c: Content, depth: nat, indent: nat)
    ensures RenderContents(cs + [c], depth, indent) == RenderContents(cs, depth, indent) + RenderContent(c, depth, indent)
    decreases |cs|
  {
    if cs == [] {
      assert [] + [c] == [c];
    } else {
      assert (cs + [c])[0] == cs[0];
      assert (cs + [c])[1..] == cs[1..] + [c];
      RenderContentsAppend(cs[1..], c, depth, indent);
    }
  }

  lemma {:induction false} RenderAllAppend(ns: seq<Node>, n: Node, depth: nat, indent: nat)
    ensures RenderAll(ns + [n], depth, indent) == RenderAll(ns, depth, indent) + RenderNode(n, depth, indent)
    decreases |ns|
  {
    if ns == [] {
      assert [] + [n] == [n];
    } else {
      assert (ns + [n])[0] == ns[0];
      assert (ns + [n])[1..] == ns[1..] + [n];
      RenderAllAppend(ns[1..], n, depth, indent);
    }
  }

  /** Roots rendered side by side read the same as the same nodes rendered
      as the children of one parent. */
  lemma {:induction false} RenderAllAsContents(ns: seq<Node>, depth: nat, indent: nat)
    ensures RenderContents(Elements(ns), depth, indent) == RenderAll(ns, depth, indent)
    decreases |ns|
  {
    if ns != [] {
      assert Elements(ns)[1..] == Elements(ns[1..]);
      RenderAllAsContents(ns[1..], depth, indent);
    }
  }

  /** In compact form a node's text does not depend on how deep it sits. */
  lemma {:induction false} CompactIgnoresDepth(n: Node, d1: nat, d2: nat)
    ensures RenderNode(n, d1, 0) == RenderNode(n, d2, 0)
    decreases n, 2
  {
    CompactContentsIgnoreDepth(n.children, d1 + 1, d2 + 1);
  }

  /** In compact form roots side by side render the same at every depth. */
  lemma {:induction false} CompactAllIgnoresDepth(ns: seq<Node>, d1: nat, d2: nat)
    ensures RenderAll(ns, d1, 0) == RenderAll(ns, d2, 0)
    decreases |ns|
  {
    if ns != [] {
      CompactIgnoresDepth(ns[0], d1, d2);
      CompactAllIgnoresDepth(ns[1..], d1, d2);
    }
  }

  lemma {:induction false} CompactContentsIgnoreDepth(cs: seq<Content>, d1: nat, d2: nat)
    ensures RenderContents(cs, d1, 0) == RenderContents(cs, d2, 0)
    decreases cs, 0
  {
    if cs != [] {
      CompactContentIgnoresDepth(cs[0], d1, d2);
      CompactContentsIgnoreDepth(cs[1..], d1, d2);
    }
  }

  lemma {:induction false} CompactContentIgnoresDepth(c: Content, d1: nat, d2: nat)
    ensures RenderContent(c, d1, 0) == RenderContent(c, d2, 0)
    decreases c, 3
  {
    if c.Element? {
      CompactIgnoresDepth(c.node, d1, d2);
    }
  }

  // ----------------------------------------------------- indented layout

  /** No line break in a node's name, its attribute names and texts, or
      its text children, all the way down. */
  ghost predicate Unbroken(n: Node)
    decreases n, 1
  {
    '\n' !in n.name && AttrsUnbroken(n.attrs) && AllUnbroken(n.children)
  }

  predicate AttrsUnbroken(a: Attrs)
  {
    forall i :: 0 <= i < |a| ==> '\n' !in a[i].0 && '\n' !in a[i].1
  }

  ghost predicate AllUnbroken(cs: seq<Content>)
    decreases cs, 0
  {
    cs == [] || (ContentUnbroken(cs[0]) && AllUnbroken(cs[1..]))
  }

  ghost predicate ContentUnbroken(c: Content)
    decreases c, 2
  {
    match c
    case Element(n) => Unbroken(n)
    case Text(t) => '\n' !in t
  }

  /** `s` with every line break removed and, after each, the spaces that
      follow it; `afterBreak` says whether `s` continues such a run. */
  function Unindent(s: string, afterBreak: bool): string
  {
    if s == [] then ""
    else if s[0] == '\n' || (afterBreak && s[0] == ' ') then Unindent(s[1..], true)
    else [s[0]] + Unindent(s[1..], false)
  }

  /** Whether a run of a line break and spaces is still open after `s`. */
  function AfterBreak(s: string, afterBreak: bool): bool
  {
    if s == [] then afterBreak
    else AfterBreak(s[1..], s[0] == '\n' || (afterBreak && s[0] == ' '))
  }

  /** Indented markup with its inserted line breaks and indentation taken
      out is the compact markup of the same node: indenting only adds
      layout. */
  lemma {:induction false} UnindentNode(n: Node, depth: nat, indent: nat)
    requires Unbroken(n)
    ensures Unindent(RenderNode(n, depth, indent), false) == RenderNode(n, depth, 0)
    ensures !AfterBreak(RenderNode(n, depth, indent), false)
    decreases n, 2
  {
    var head := "<" + n.name + RenderAttrs(n.attrs);
    assert '\n' !in head by {
      RenderAttrsUnbroken(n.attrs);
    }
    UnbrokenUnchanged(head);
    var tail, tail0;
    if SelfCloses(n) {
      tail, tail0 := " />", " />";
      UnbrokenUnchanged(tail);
    } else {
      tail := RenderBody(n, depth, indent) + CloseTag(n.name);
      tail0 := RenderBody(n, depth, 0) + CloseTag(n.name);
      UnindentTail(n, depth, indent);
    }
    UnindentJoin(head, tail, head, tail0);
    NodeParts(n, depth, 0);
    NodeParts(n, depth, indent);
    assert "" + (head + tail0) == head + tail0;
    if depth > 0 && indent > 0 {
      UnindentIndented(depth * indent, head + tail, head + tail0);
    } else {
      assert "" + (head + tail) == head + tail;
    }
  }

  /** A node's text is its indentation, then `<name attrs`, then ` />` or
      its body and closing tag. */
  lemma NodeParts(n: Node, depth: nat, indent: nat)
    ensures RenderNode(n, depth, indent) ==
      OpenIndent(depth, indent) + (("<" + n.name + RenderAttrs(n.attrs)) +
        (if SelfCloses(n) then " />" else RenderBody(n, depth, indent) + CloseTag(n.name)))
  {
  }

  /** A node that does not close itself: from the `>` of its opening tag
      to its closing tag. */
  lemma {:induction false} UnindentTail(n: Node, depth: nat, indent: nat)
    requires Unbroken(n) && !SelfCloses(n)
    ensures Unindent(RenderBody(n, depth, indent) + CloseTag(n.name), false) == RenderBody(n, depth, 0) + CloseTag(n.name)
    ensures !AfterBreak(RenderBody(n, depth, indent) + CloseTag(n.name), false)
    decreases n, 1
  {
    var inner := RenderContents(n.children, depth + 1, indent);
    var inner0 := RenderContents(n.children, depth + 1, 0);
    var close := CloseTag(n.name);
    UnindentContents(n.children, depth + 1, indent);
    UnbrokenUnchanged(">");
    UnbrokenUnchanged(close);
    UnindentJoin(">", inner, ">", inner0);
    assert "" + close == close;
    BodyParts(n, depth, 0);
    assert RenderBody(n, depth, 0) + close == (">" + inner0) + close;
    BodyParts(n, depth, indent);
    if HasElement(n.children) && indent > 0 {
      var ci := "\n" + Spaces(depth * indent);
      UnindentIndented(depth * indent, close, close);
      UnindentJoin(">" + inner, ci + close, ">" + inner0, close);
      assert RenderBody(n, depth, indent) + close == (">" + inner) + (ci + close);
    } else {
      UnindentJoin(">" + inner, close, ">" + inner0, close);
      assert RenderBody(n, depth, indent) + close == (">" + inner) + close;
    }
  }

  /** A body and closing tag: `>`, the children, and the closing tag, on
      its own indented line only in indented form after a nested node. */
  lemma BodyParts(n: Node, depth: nat, indent: nat)
    ensures RenderBody(n, depth, indent) + CloseTag(n.name) ==
      (">" + RenderContents(n.children, depth + 1, indent)) +
      ((if HasElement(n.children) && indent > 0 then "\n" + Spaces(depth * indent) else "") + CloseTag(n.name))
  {
    var inner := ">" + RenderContents(n.children, depth + 1, indent);
    assert inner + "" == inner;
    assert "" + CloseTag(n.name) == CloseTag(n.name);
  }

  /** Two pieces, each unindenting to its compact form, unindent to the
      two compact forms side by side. */
  lemma UnindentJoin(x: string, y: string, x0: string, y0: string)
    requires Unindent(x, false) == x0 && !AfterBreak(x, false)
    requires Unindent(y, false) == y0 && !AfterBreak(y, false)
    ensures Unindent(x + y, false) == x0 + y0 && !AfterBreak(x + y, false)
  {
    UnindentAppend(x, y, false);
  }

  /** A tag on its own indented line unindents to the tag alone. */
  lemma UnindentIndented(k: nat, s: string, s0: string)
    requires s != [] && s[0] == '<'
    requires Unindent(s, false) == s0 && !AfterBreak(s, false)
    ensures Unindent("\n" + Spaces(k) + s, false) == s0 && !AfterBreak("\n" + Spaces(k) + s, false)
  {
    IndentRemoved(k);
    UnindentAppend("\n" + Spaces(k), s, false);
    TagStart(s, true);
  }

  lemma {:induction false} UnindentContents(cs: seq<Content>, depth: nat, indent: nat)
    requires AllUnbroken(cs)
    ensures Unindent(RenderContents(cs, depth, indent), false) == RenderContents(cs, depth, 0)
    ensures !AfterBreak(RenderContents(cs, depth, indent), false)
    decreases cs, 0
  {
    if cs != [] {
      UnindentContent(cs[0], depth, indent);
      UnindentContents(cs[1..], depth, indent);
      UnindentAppend(RenderContent(cs[0], depth, indent), RenderContents(cs[1..], depth, indent), false);
    }
  }

  lemma {:induction false} UnindentContent(c: Content, depth: nat, indent: nat)
    requires ContentUnbroken(c)
    ensures Unindent(RenderContent(c, depth, indent), false) == RenderContent(c, depth, 0)
    ensures !AfterBreak(RenderContent(c, depth, indent), false)
    decreases c, 3
  {
    if c.Element? {
      UnindentNode(c.node, depth, indent);
    } else {
      UnbrokenUnchanged(c.text);
    }
  }

  /** Unindenting works piece by piece, each piece starting where the
      previous one left off. */
  lemma {:induction false} UnindentAppend(x: string, y: string, afterBreak: bool)
    ensures Unindent(x + y, afterBreak) == Unindent(x, afterBreak) + Unindent(y, AfterBreak(x, afterBreak))
    ensures AfterBreak(x + y, afterBreak) == AfterBreak(y, AfterBreak(x, afterBreak))
    decreases |x|
  {
    if x == [] {
      assert [] + y == y;
    } else {
      assert (x + y)[0] == x[0];
      assert (x + y)[1..] == x[1..] + y;
      UnindentAppend(x[1..], y, x[0] == '\n' || (afterBreak && x[0] == ' '));
    }
  }

  /** Text without a line break is left as it is. */
  lemma {:induction false} UnbrokenUnchanged(s: string)
    requires '\n' !in s
    ensures Unindent(s, false) == s && !AfterBreak(s, false)
    decreases |s|
  {
    if s != [] {
      assert '\n' !in s[1..] by {
        assert forall c :: c in s[1..] ==> c in s;
      }
      UnbrokenUnchanged(s[1..]);
    }
  }

  /** A line break and its indentation are removed entirely. */
  lemma IndentRemoved(k: nat)
    ensures Unindent("\n" + Spaces(k), false) == "" && AfterBreak("\n" + Spaces(k), false)
  {
    SpacesRemoved(k);
    assert ("\n" + Spaces(k))[1..] == Spaces(k);
  }

  lemma {:induction false} SpacesRemoved(k: nat)
    ensures Unindent(Spaces(k), true) == "" && AfterBreak(Spaces(k), true)
  {
    if k > 0 {
      assert Spaces(k)[1..] == Spaces(k - 1);
      SpacesRemoved(k - 1);
    }
  }

  /** Text that starts with a tag is read the same whether or not a run
      of indentation was open before it. */
  lemma TagStart(s: string, afterBreak: bool)
    requires s != [] && s[0] == '<'
    ensures Unindent(s, afterBreak) == Unindent(s, false)
    ensures AfterBreak(s, afterBreak) == AfterBreak(s, false)
  {
  }

  lemma {:induction false} RenderAttrsUnbroken(a: Attrs)
    requires AttrsUnbroken(a)
    ensures '\n' !in RenderAttrs(a)
    decreases |a|
  {
    if a != [] {
      assert AttrsUnbroken(a[1..]) by {
        forall i | 0 <= i < |a[1..]|
          ensures '\n' !in a[1..][i].0 && '\n' !in a[1..][i].1
        {
          assert a[1..][i] == a[i + 1];
        }
      }
      RenderAttrsUnbroken(a[1..]);
    }
  }
}
