/** Xmlss::Element::Column: a worksheet column's width, auto-fit and
    hidden flags, and style. */
module ColumnElement {
  import opened Values
  import opened AttrLists
  import opened Formatting
  import CellElement
  import Writer

  /** width=: nil clears it; a negative number is stored as nil; any other
      number is kept; anything else is an ArgumentError. */
  function Width(v: Value): (r: Result<Value>)
    ensures r.Ok? <==> v == Nil || IsNumeric(v)
    ensures r.Err? ==> r.error == ArgumentError
    ensures r.Ok? ==> r.value == Nil || (IsNumeric(r.value) && !IsNegative(r.value))
    ensures r.Ok? && IsNumeric(v) && !IsNegative(v) ==> r.value == v
    ensures r.Ok? && IsNegative(v) ==> r.value == Nil
    ensures v == Nil ==> r == Ok(Nil)
  {
    if v == Nil then Ok(Nil)
    else if !IsNumeric(v) then Err(ArgumentError)
    else if IsNegative(v) then Ok(Nil)
    else Ok(v)
  }

  /** Storing a stored width again changes nothing. */
  lemma WidthIdempotent(v: Value)
    requires Width(v).Ok?
    ensures Width(Width(v).value) == Width(v)
  {
  }

  class Column {
    var width: Value
    var autoFitWidth: Value
    var hidden: Value
    var styleId: Value

    /** A new column: no width or style, not auto-fit, not hidden. */
    constructor()
      ensures width == Nil && autoFitWidth == Bool(false) && hidden == Bool(false) && styleId == Nil
    {
      width := Nil;
      autoFitWidth := Bool(false);
      hidden := Bool(false);
      styleId := Nil;
    }

    method SetWidth(v: Value) returns (r: Outcome)
      modifies this
      ensures Width(v).Err? ==> r == Fail(ArgumentError) && width == old(width)
      ensures Width(v).Ok? ==> r == Pass && width == Width(v).value
      ensures autoFitWidth == old(autoFitWidth) && hidden == old(hidden) && styleId == old(styleId)
    {
      var w := Width(v);
      if w.Err? {
        return Fail(w.error);
      }
      width := w.value;
      r := Pass;
    }

    method SetAutoFitWidth(v: Value)
      modifies this
      ensures autoFitWidth == v
      ensures width == old(width) && hidden == old(hidden) && styleId == old(styleId)
    {
      autoFitWidth := v;
    }

    method SetHidden(v: Value)
      modifies this
      ensures hidden == v
      ensures width == old(width) && autoFitWidth == old(autoFitWidth) && styleId == old(styleId)
    {
      hidden := v;
    }

    method SetStyleId(v: Value)
      modifies this
      ensures styleId == v
      ensures width == old(width) && autoFitWidth == old(autoFitWidth) && hidden == old(hidden)
    {
      styleId := v;
    }

    /** What the writer is handed: style, width and the two flags. */
    function Describe(): (d: Describable)
      reads this
      ensures HasAllKeys(d)
      ensures Attributes(d).Ok?
      ensures Lookup(Attributes(d).value, "ss:StyleID") == AttrText(styleId)
      ensures Lookup(Attributes(d).value, "ss:Width") == AttrText(width)
      ensures Lookup(Attributes(d).value, "ss:AutoFitWidth") == AttrText(autoFitWidth)
      ensures Lookup(Attributes(d).value, "ss:Hidden") == AttrText(hidden)
    {
      var d := Describable(["style_i_d", "width", "auto_fit_width", "hidden"],
        map["style_i_d" := styleId, "width" := width, "auto_fit_width" := autoFitWidth, "hidden" := hidden]);
      ColumnAttributes(d);
      d
    }
  }

  /** The four keys of a column name four distinct attributes, so each
      field's text sits under its own name. */
  lemma ColumnAttributes(d: Describable)
    requires d.keys == ["style_i_d", "width", "auto_fit_width", "hidden"]
    requires "style_i_d" in d.values && "width" in d.values && "auto_fit_width" in d.values && "hidden" in d.values
    ensures Attributes(d).Ok?
    ensures Lookup(Attributes(d).value, "ss:StyleID") == AttrText(d.values["style_i_d"])
    ensures Lookup(Attributes(d).value, "ss:Width") == AttrText(d.values["width"])
    ensures Lookup(Attributes(d).value, "ss:AutoFitWidth") == AttrText(d.values["auto_fit_width"])
    ensures Lookup(Attributes(d).value, "ss:Hidden") == AttrText(d.values["hidden"])
  {
    var keys := d.keys;
    assert keys[0] == "style_i_d" && keys[1] == "width" && keys[2] == "auto_fit_width" && keys[3] == "hidden";
    assert HasAllKeys(d);
    CellElement.StyleIdName();
    WidthName();
    AutoFitWidthName();
    HiddenName();
    FourAttributes(d, "ss:StyleID", "ss:Width", "ss:AutoFitWidth", "ss:Hidden");
  }

  lemma WidthName()
    ensures AttrName("width") == "ss:Width"
  {
    WordAttrName("width", "ss:Width");
  }

  lemma HiddenName()
    ensures AttrName("hidden") == "ss:Hidden"
  {
    WordAttrName("hidden", "ss:Hidden");
  }

  lemma AutoFitWidthName()
    ensures AttrName("auto_fit_width") == "ss:AutoFitWidth"
  {
    ThreeWordAttrName("auto_fit_width", "auto", "fit", "width", "ss:AutoFitWidth");
  }

  const ColumnHook: Writer.Hook := Writer.Column

  lemma ColumnHookName()
    ensures Writer.HookName(ColumnHook) == "column" && !Writer.InStyles(ColumnHook)
  {
  }
}
