/** Xmlss::Writer: builds the style markup and the element markup of a
    SpreadsheetML workbook in two independent regions, then assembles the
    workbook document. Each hook method (`style`, `border`, `worksheet`,
    `cell`, ...) opens a node named after the hook whose attributes come
    from a describable value object; when the call has a nested block the
    node stays open until the block ends, and the attribute setters
    (`style_id`, `height`, `href`, `type`, ...) write to the innermost open
    element node. */
module Writer {
  import opened Values
  import opened AttrLists
  import opened Formatting
  import opened Escaping
  import opened Markup
  import opened Scopes
  import Enums
  import DataElement
  import CellElement

  /** The writer hooks: the first eight write style markup, the rest
      element markup. Data has its own method, since it also carries text. */
  datatype Hook =
    | Style | Alignment | Borders | Border | Font | Interior | NumberFormat | Protection
    | Worksheet | Column | Row | Cell

  predicate InStyles(h: Hook)
  {
    h.Style? || h.Alignment? || h.Borders? || h.Border? || h.Font? ||
    h.Interior? || h.NumberFormat? || h.Protection?
  }

  /** The name of the writer method a value object reports as its hook. */
  function HookName(h: Hook): string
  {
    match h
    case Style => "style"
    case Alignment => "alignment"
    case Borders => "borders"
    case Border => "border"
    case Font => "font"
    case Interior => "interior"
    case NumberFormat => "number_format"
    case Protection => "protection"
    case Worksheet => "worksheet"
    case Column => "column"
    case Row => "row"
    case Cell => "cell"
  }

  /** The element name the hook writes. */
  function NodeName(h: Hook): string
  {
    match h
    case Style => "Style"
    case Alignment => "Alignment"
    case Borders => "Borders"
    case Border => "Border"
    case Font => "Font"
    case Interior => "Interior"
    case NumberFormat => "NumberFormat"
    case Protection => "Protection"
    case Worksheet => "Worksheet"
    case Column => "Column"
    case Row => "Row"
    case Cell => "Cell"
  }

  const Declaration: string := "<?xml version=\"1.0\" encoding=\"UTF-8\"?>"

  const SpreadsheetUrn: string := "urn:schemas-microsoft-com:office:spreadsheet"

  /** The Workbook root's namespace attributes, in name order. */
  const RootAttrs: Attrs := [("xmlns", SpreadsheetUrn), ("xmlns:ss", SpreadsheetUrn)]

  /** The frame a hook opens; only a worksheet wraps its content. */
  function NewFrame(h: Hook, attrs: Attrs, block: bool): (f: Frame)
    ensures f.node.name == NodeName(h) && f.node.attrs == attrs && f.node.children == []
    ensures f.node.block == block && (f.wrap <==> h == Worksheet)
    ensures Sorted(attrs) ==> WellFormed(f.node)
  {
    Frame(Node(NodeName(h), attrs, [], block), h == Worksheet)
  }

  /** The Data element: its type attribute and its escaped text. */
  function DataFrame(attrs: Attrs, value: Value, block: bool): (f: Frame)
    ensures f.node.name == "Data" && f.node.attrs == attrs && !f.wrap
    ensures f.node.children == [Text(Escape(Display(value)))]
    ensures Sorted(attrs) ==> WellFormed(f.node)
  {
    var t := Text(Escape(Display(value)));
    EscapeSafe(Display(value));
    assert ContentWellFormed(t);
    assert [t][1..] == [];
    assert AllWellFormed([t]);
    Frame(Node("Data", attrs, [t], block), false)
  }

  /** The key a writer setter writes under. The `style_id` and `href`
      setters write the alias keys `style_i_d` and `h_ref`, whose
      classified names are SpreadsheetML's StyleID and HRef; every other
      setter writes under its own name. */
  function SetterKey(setter: string): (k: string)
    ensures setter == "style_id" ==> AttrName(k) == "ss:StyleID"
    ensures setter == "href" ==> AttrName(k) == "ss:HRef"
    ensures setter != "style_id" && setter != "href" ==> k == setter
  {
    if setter == "style_id" then
      CellElement.StyleIdName();
      "style_i_d"
    else if setter == "href" then
      CellElement.HrefName();
      "h_ref"
    else setter
  }

  /** The document under the declaration: the Workbook root with both
      namespaces, holding the Styles container and, after it, the element
      roots in the order they were finished. Built from well-formed roots
      it is well-formed. */
  function WorkbookNode(styleRoots: seq<Node>, elementRoots: seq<Node>): (r: Node)
    ensures r.name == "Workbook" && r.attrs == RootAttrs && !SelfCloses(r)
    ensures |r.children| == |elementRoots| + 1 && r.children[0] == Element(StylesNode(styleRoots))
    ensures forall i :: 0 <= i < |elementRoots| ==> r.children[i + 1] == Element(elementRoots[i])
    ensures AllNodesWellFormed(styleRoots) && AllNodesWellFormed(elementRoots) ==> WellFormed(r)
  {
    var kids := [Element(StylesNode(styleRoots))] + Elements(elementRoots);
    RootWellFormed(styleRoots, elementRoots);
    Node("Workbook", RootAttrs, kids, true)
  }

  lemma RootWellFormed(styleRoots: seq<Node>, elementRoots: seq<Node>)
    ensures AllNodesWellFormed(styleRoots) && AllNodesWellFormed(elementRoots) ==>
      WellFormed(Node("Workbook", RootAttrs, [Element(StylesNode(styleRoots))] + Elements(elementRoots), true))
  {
    var kids := [Element(StylesNode(styleRoots))] + Elements(elementRoots);
    if AllNodesWellFormed(styleRoots) && AllNodesWellFormed(elementRoots) {
      ElementsWellFormed(styleRoots);
      ElementsWellFormed(elementRoots);
      RootAttrsSorted();
      assert ContentWellFormed(kids[0]);
      assert kids[1..] == Elements(elementRoots);
    }
  }

  ghost predicate AllNodesWellFormed(ns: seq<Node>)
  {
    forall i :: 0 <= i < |ns| ==> WellFormed(ns[i])
  }

  lemma {:induction false} ElementsWellFormed(ns: seq<Node>)
    requires AllNodesWellFormed(ns)
    ensures AllWellFormed(Elements(ns))
    decreases |ns|
  {
    if ns != [] {
      assert Elements(ns)[1..] == Elements(ns[1..]);
      ElementsWellFormed(ns[1..]);
    }
  }

  /** xmlns sorts before xmlns:ss, being a proper prefix of it. */
  lemma RootAttrsSorted()
    ensures Sorted(RootAttrs)
  {
    assert "xmlns:ss" == "xmlns" + ":ss";
    PrefixBelow("xmlns", ":ss");
  }

  lemma {:induction false} PrefixBelow(a: string, b: string)
    requires b != []
    ensures Below(a, a + b)
    decreases |a|
  {
    if a != [] {
      assert (a + b)[0] == a[0] && (a + b)[1..] == a[1..] + b;
      PrefixBelow(a[1..], b);
    }
  }

  class Writer {
    /** Spaces per nesting level; 0 writes compact markup. */
    const indent: nat
    var styles: Scope
    var elements: Scope

    ghost predicate Valid()
      reads this
    {
      ScopeOk(styles) && ScopeOk(elements)
    }

    constructor(pp: nat)
      ensures Valid() && indent == pp
      ensures styles == Empty && elements == Empty
    {
      indent := pp;
      styles := Empty;
      elements := Empty;
    }

    /** A hook call: opens the hook's node with the describable's
        attributes, in the hook's region; with `block` the node stays open
        until Close. A describable naming a key it has no value for is an
        error and changes nothing. */
    method Open(h: Hook, d: Describable, block: bool) returns (r: Outcome)
      requires Valid()
      modifies this
      ensures Valid()
      ensures Attributes(d).Err? ==>
        r == Fail(Attributes(d).error) && styles == old(styles) && elements == old(elements)
      ensures Attributes(d).Ok? && InStyles(h) ==>
        r == Pass && elements == old(elements) &&
        styles == Enter(old(styles), NewFrame(h, Attributes(d).value, block), block)
      ensures Attributes(d).Ok? && !InStyles(h) ==>
        r == Pass && styles == old(styles) &&
        elements == Enter(old(elements), NewFrame(h, Attributes(d).value, block), block)
    {
      var a := Attributes(d);
      if a.Err? {
        return Fail(a.error);
      }
      var f := NewFrame(h, a.value, block);
      if InStyles(h) {
        styles := Enter(styles, f, block);
      } else {
        elements := Enter(elements, f, block);
      }
      r := Pass;
    }

    /** The `data` hook: a Data element with the data's type attribute and
        its value as escaped text. */
    method Data(d: Describable, value: Value, block: bool) returns (r: Outcome)
      requires Valid()
      modifies this
      ensures Valid() && styles == old(styles)
      ensures Attributes(d).Err? ==> r == Fail(Attributes(d).error) && elements == old(elements)
      ensures Attributes(d).Ok? ==>
        r == Pass && elements == Enter(old(elements), DataFrame(Attributes(d).value, value, block), block)
    {
      var a := Attributes(d);
      if a.Err? {
        return Fail(a.error);
      }
      elements := Enter(elements, DataFrame(a.value, value, block), block);
      r := Pass;
    }

    /** The end of a hook's block in one region. */
    method Close(inStyles: bool) returns (r: Outcome)
      requires Valid()
      modifies this
      ensures Valid()
      ensures inStyles ==> elements == old(elements)
      ensures inStyles && old(styles).open == [] ==> r == Fail(ScopeUnderflow) && styles == old(styles)
      ensures inStyles && old(styles).open != [] ==> r == Pass && styles == CloseTop(old(styles))
      ensures !inStyles ==> styles == old(styles)
      ensures !inStyles && old(elements).open == [] ==> r == Fail(ScopeUnderflow) && elements == old(elements)
      ensures !inStyles && old(elements).open != [] ==> r == Pass && elements == CloseTop(old(elements))
    {
      if inStyles {
        if styles.open == [] {
          return Fail(ScopeUnderflow);
        }
        styles := CloseTop(styles);
      } else {
        if elements.open == [] {
          return Fail(ScopeUnderflow);
        }
        elements := CloseTop(elements);
      }
      r := Pass;
    }

    /** An attribute setter (`style_id`, `height`, `href`, `index`, ...):
        writes `ss:` + the classified setter key on the innermost open
        element node, replacing an earlier value; `style_id` thus writes
        ss:StyleID and `href` ss:HRef. An omitted value (false, "" or nil)
        writes nothing. */
    method SetAttribute(setter: string, v: Value) returns (r: Outcome)
      requires Valid()
      modifies this
      ensures Valid() && styles == old(styles)
      ensures old(elements).open == [] ==> r == Fail(ScopeUnderflow) && elements == old(elements)
      ensures old(elements).open != [] && AttrText(v).None? ==> r == Pass && elements == old(elements)
      ensures old(elements).open != [] && AttrText(v).Some? ==>
        r == Pass && elements == SetTop(old(elements), AttrName(SetterKey(setter)), AttrText(v).value).value
    {
      if elements.open == [] {
        return Fail(ScopeUnderflow);
      }
      var text := AttrText(v);
      if text.Some? {
        elements := SetTop(elements, AttrName(SetterKey(setter)), text.value).value;
      }
      r := Pass;
    }

    /** The `type` setter: takes a Data type key or value and writes its
        canonical value; anything else is an invalid enum value. */
    method SetType(v: Value) returns (r: Outcome)
      requires Valid()
      modifies this
      ensures Valid() && styles == old(styles)
      ensures Enums.Encode(Enums.DataType, v).Err? ==> r == Fail(InvalidEnumValue) && elements == old(elements)
      ensures Enums.Encode(Enums.DataType, v).Ok? && old(elements).open == [] ==>
        r == Fail(ScopeUnderflow) && elements == old(elements)
      ensures Enums.Encode(Enums.DataType, v).Ok? && old(elements).open != [] ==>
        r == Pass &&
        elements == SetTop(old(elements), "ss:Type", Display(Enums.Encode(Enums.DataType, v).value)).value
    {
      var t := Enums.Encode(Enums.DataType, v);
      if t.Err? {
        return Fail(t.error);
      }
      TypeAttrName();
      DataElement.DataTypeText(t.value);
      r := SetAttribute("type", t.value);
    }

    /** Ends every open node in both regions; returns the writer itself. */
    method Flush() returns (w: Writer)
      requires Valid()
      modifies this
      ensures w == this && Valid()
      ensures styles == Drain(old(styles)) && elements == Drain(old(elements))
    {
      DrainStyles();
      DrainElements();
      w := this;
    }

    /** Ends every open style node, innermost first. */
    method DrainStyles()
      requires Valid()
      modifies this
      ensures Valid() && styles == Drain(old(styles)) && elements == old(elements)
    {
      while styles.open != []
        invariant ScopeOk(styles) && ScopeOk(elements) && elements == old(elements)
        invariant Drain(styles) == Drain(old(styles))
        decreases |styles.open|
      {
        DrainStep(styles);
        styles := CloseTop(styles);
      }
    }

    /** Ends every open element node, innermost first. */
    method DrainElements()
      requires Valid()
      modifies this
      ensures Valid() && elements == Drain(old(elements)) && styles == old(styles)
    {
      while elements.open != []
        invariant ScopeOk(elements) && ScopeOk(styles) && styles == old(styles)
        invariant Drain(elements) == Drain(old(elements))
        decreases |elements.open|
      {
        DrainStep(elements);
        elements := CloseTop(elements);
      }
    }

    /** style_markup: the finished style nodes, rendered at depth 2, where
        they sit inside Workbook and Styles. Nothing is written before a
        style is finished, and in compact form the text is the styles'
        own, whatever the depth. */
    function StyleMarkup(): (r: string)
      reads this
      ensures styles.done == [] ==> r == ""
      ensures indent == 0 ==> r == RenderAll(styles.done, 0, 0)
    {
      CompactAllIgnoresDepth(styles.done, 2, 0);
      RenderAll(styles.done, 2, indent)
    }

    /** element_markup: the finished element nodes, rendered at depth 1,
        where they sit inside Workbook. Nothing is written before an
        element is finished, and in compact form the text is the elements'
        own, whatever the depth. */
    function ElementMarkup(): (r: string)
      reads this
      ensures elements.done == [] ==> r == ""
      ensures indent == 0 ==> r == RenderAll(elements.done, 0, 0)
    {
      CompactAllIgnoresDepth(elements.done, 1, 0);
      RenderAll(elements.done, 1, indent)
    }

    /** workbook: the declaration, a line break, and the Workbook root with
        both namespaces, holding the Styles container around the style
        markup, then the element markup. */
    function Workbook(): (r: string)
      reads this
      ensures r ==
        Declaration + "\n" + RootOpenTag +
        StylesText(StyleMarkup(), styles.done != [], indent) +
        ElementMarkup() + CloseIndent(0, indent) + CloseTag("Workbook")
    {
      var ss, es, pp := styles.done, elements.done, indent;
      RootRender(ss, es, pp);
      StylesRender(ss, pp);
      Regroup(Declaration + "\n", RootOpenTag, StylesText(RenderAll(ss, 2, pp), ss != [], pp),
        RenderAll(es, 1, pp), CloseIndent(0, pp), CloseTag("Workbook"));
      Declaration + "\n" + RenderNode(WorkbookNode(ss, es), 0, pp)
    }
  }

  // Moves the parentheses of a six-part concatenation, in the shapes that
  // Workbook, StylesRender and RootRender need; it keeps their proofs small.
  lemma Regroup(a: string, b: string, c: string, d: string, e: string, f: string)
    ensures a + (b + c + d + e + f) == a + b + c + d + e + f
    ensures (a + b) + ((c + d + e) + f) == a + (b + c) + d + e + f
    ensures a + ((b + (c + d) + e) + f) == (a + b) + c + d + e + f
  {
  }

  /** The opening tag of the Workbook root. */
  const RootOpenTag: string := "<Workbook" + RenderAttrs(RootAttrs) + ">"

  /** The Styles container around the given style markup. */
  function StylesText(styleMarkup: string, hasStyles: bool, indent: nat): string
  {
    OpenIndent(1, indent) + "<Styles>" + styleMarkup +
    (if hasStyles then CloseIndent(1, indent) else "") + CloseTag("Styles")
  }

  function StylesNode(styleRoots: seq<Node>): Node
  {
    Node("Styles", [], Elements(styleRoots), true)
  }

  lemma StylesRender(ss: seq<Node>, pp: nat)
    ensures RenderNode(StylesNode(ss), 1, pp) == StylesText(RenderAll(ss, 2, pp), ss != [], pp)
  {
    var n := StylesNode(ss);
    var inner := RenderAll(ss, 2, pp);
    var ci := if ss != [] then CloseIndent(1, pp) else "";
    var oi := OpenIndent(1, pp);
    assert RenderNode(n, 1, pp) == OpenTag(n, 1, pp) + (RenderBody(n, 1, pp) + CloseTag("Styles"));
    StylesOpenTag(ss, pp);
    StylesBody(ss, pp);
    Regroup(oi, "<Styles", ">", inner, ci, CloseTag("Styles"));
    assert "<Styles" + ">" == "<Styles>";
  }

  lemma StylesOpenTag(ss: seq<Node>, pp: nat)
    ensures OpenTag(StylesNode(ss), 1, pp) == OpenIndent(1, pp) + "<Styles"
  {
    assert RenderAttrs([]) == "";
  }

  /** Styles holds a nested node exactly when there is a style. */
  lemma StylesBody(ss: seq<Node>, pp: nat)
    ensures RenderBody(StylesNode(ss), 1, pp) ==
      ">" + RenderAll(ss, 2, pp) + (if ss != [] then CloseIndent(1, pp) else "")
  {
    assert HasElement(Elements(ss)) <==> ss != [] by {
      if ss != [] { assert Elements(ss)[0].Element?; }
    }
    RenderAllAsContents(ss, 2, pp);
  }

  lemma RootRender(ss: seq<Node>, es: seq<Node>, pp: nat)
    ensures RenderNode(WorkbookNode(ss, es), 0, pp) ==
      RootOpenTag + RenderNode(StylesNode(ss), 1, pp) + RenderAll(es, 1, pp) +
      CloseIndent(0, pp) + CloseTag("Workbook")
  {
    var n := WorkbookNode(ss, es);
    var sn := RenderNode(StylesNode(ss), 1, pp);
    var en := RenderAll(es, 1, pp);
    var ci := CloseIndent(0, pp);
    var ot := OpenTag(n, 0, pp);
    var ct := CloseTag("Workbook");
    calc {
      RenderNode(n, 0, pp);
      ot + (RenderBody(n, 0, pp) + ct);
      { WorkbookBody(ss, es, pp); }
      ot + ((">" + (sn + en) + ci) + ct);
      { Regroup(ot, ">", sn, en, ci, ct); }
      (ot + ">") + sn + en + ci + ct;
      { RootTag(ss, es, pp); }
      RootOpenTag + sn + en + ci + ct;
    }
  }

  lemma RootTag(ss: seq<Node>, es: seq<Node>, pp: nat)
    ensures OpenTag(WorkbookNode(ss, es), 0, pp) + ">" == RootOpenTag
  {
    var n := WorkbookNode(ss, es);
    TopOpenTag(n, pp);
    assert "<" + "Workbook" == "<Workbook";
  }

  /** At the root the opening tag has no indentation. */
  lemma TopOpenTag(n: Node, pp: nat)
    ensures OpenTag(n, 0, pp) == "<" + n.name + RenderAttrs(n.attrs)
  {
  }

  lemma WorkbookBody(ss: seq<Node>, es: seq<Node>, pp: nat)
    ensures RenderBody(WorkbookNode(ss, es), 0, pp) ==
      ">" + (RenderNode(StylesNode(ss), 1, pp) + RenderAll(es, 1, pp)) + CloseIndent(0, pp)
  {
    var kids := WorkbookNode(ss, es).children;
    assert kids[0] == Element(StylesNode(ss)) && kids[1..] == Elements(es);
    assert HasElement(kids);
    RenderAllAsContents(es, 1, pp);
    assert RenderContents(kids, 1, pp) == RenderContent(kids[0], 1, pp) + RenderContents(kids[1..], 1, pp);
  }

  lemma RootAttrsText()
    ensures RenderAttrs(RootAttrs) == AttrMarkup("xmlns", SpreadsheetUrn) + AttrMarkup("xmlns:ss", SpreadsheetUrn)
  {
    var rest := RootAttrs[1..];
    assert rest == [("xmlns:ss", SpreadsheetUrn)] && rest[1..] == [];
    assert RenderAttrs(rest) == AttrMarkup("xmlns:ss", SpreadsheetUrn) + RenderAttrs([]);
  }
}
