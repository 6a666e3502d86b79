/** Xmlss::Style::Border and Xmlss::Style::Borders: one edge of a cell
    style, with a free-form colour and three enum-backed fields. */
module StyleBorder {
  import opened Values
  import opened AttrLists
  import opened Formatting
  import opened Enums
  import Writer

  class Border {
    var color: Value
    var position: Value
    var weight: Value
    var lineStyle: Value

    /** Each enum field holds nil or one of its table's canonical values. */
    ghost predicate Valid()
      reads this
    {
      && (position == Nil || HasValue(Position, position))
      && (weight == Nil || HasValue(Weight, weight))
      && (lineStyle == Nil || HasValue(LineStyle, lineStyle))
    }

    /** A new border: no colour or position, and the canonical values of
        weight :thin and line style :continuous (see DefaultsCanonical). */
    constructor()
      ensures Valid()
      ensures color == Nil && position == Nil
      ensures weight == Int(1) && lineStyle == Str("Continuous")
    {
      color := Nil;
      position := Nil;
      weight := Int(1);
      lineStyle := Str("Continuous");
      DefaultsCanonical();
    }

    /** Border.new(attrs): a new border with each given field assigned;
        an enum field given neither a key nor a canonical value fails. */
    static method New(color: Option<Value>, position: Option<Value>, weight: Option<Value>,
                      lineStyle: Option<Value>) returns (b: Border, r: Outcome)
      ensures fresh(b) && b.Valid()
      ensures r == Pass <==>
        && (position.Some? ==> Assign(Position, position.value).Ok?)
        && (weight.Some? ==> Assign(Weight, weight.value).Ok?)
        && (lineStyle.Some? ==> Assign(LineStyle, lineStyle.value).Ok?)
      ensures r.Fail? ==> r.error == InvalidEnumValue
      ensures r == Pass ==>
        && b.color == (if color.Some? then color.value else Nil)
        && b.position == (if position.Some? then Assign(Position, position.value).value else Nil)
        && b.weight == (if weight.Some? then Assign(Weight, weight.value).value else Int(1))
        && b.lineStyle == (if lineStyle.Some? then Assign(LineStyle, lineStyle.value).value else Str("Continuous"))
    {
      b := new Border();
      if color.Some? {
        b.SetColor(color.value);
      }
      r := Pass;
      if position.Some? {
        r := b.SetPosition(position.value);
        if r.Fail? { return; }
      }
      if weight.Some? {
        r := b.SetWeight(weight.value);
        if r.Fail? { return; }
      }
      if lineStyle.Some? {
        r := b.SetLineStyle(lineStyle.value);
      }
    }

    method SetColor(v: Value)
      requires Valid()
      modifies this
      ensures Valid()
      ensures color == v
      ensures position == old(position) && weight == old(weight) && lineStyle == old(lineStyle)
    {
      color := v;
    }

    /** position=: stores the canonical value of a key or value. */
    method SetPosition(v: Value) returns (r: Outcome)
      requires Valid()
      modifies this
      ensures Valid()
      ensures Assign(Position, v).Err? ==> r == Fail(InvalidEnumValue) && position == old(position)
      ensures Assign(Position, v).Ok? ==> r == Pass && position == Assign(Position, v).value
      ensures color == old(color) && weight == old(weight) && lineStyle == old(lineStyle)
    {
      var a := Assign(Position, v);
      if a.Err? {
        return Fail(a.error);
      }
      position := a.value;
      r := Pass;
    }

    /** weight=: stores the canonical value of a key or value. */
    method SetWeight(v: Value) returns (r: Outcome)
      requires Valid()
      modifies this
      ensures Valid()
      ensures Assign(Weight, v).Err? ==> r == Fail(InvalidEnumValue) && weight == old(weight)
      ensures Assign(Weight, v).Ok? ==> r == Pass && weight == Assign(Weight, v).value
      ensures color == old(color) && position == old(position) && lineStyle == old(lineStyle)
    {
      var a := Assign(Weight, v);
      if a.Err? {
        return Fail(a.error);
      }
      weight := a.value;
      r := Pass;
    }

    /** line_style=: stores the canonical value of a key or value. */
    method SetLineStyle(v: Value) returns (r: Outcome)
      requires Valid()
      modifies this
      ensures Valid()
      ensures Assign(LineStyle, v).Err? ==> r == Fail(InvalidEnumValue) && lineStyle == old(lineStyle)
      ensures Assign(LineStyle, v).Ok? ==> r == Pass && lineStyle == Assign(LineStyle, v).value
      ensures color == old(color) && position == old(position) && weight == old(weight)
    {
      var a := Assign(LineStyle, v);
      if a.Err? {
        return Fail(a.error);
      }
      lineStyle := a.value;
      r := Pass;
    }

    /** What the writer is handed: the four fields under their keys. */
    function Describe(): (d: Describable)
      reads this
      ensures HasAllKeys(d)
      ensures Attributes(d).Ok?
      ensures Lookup(Attributes(d).value, "ss:Color") == AttrText(color)
      ensures Lookup(Attributes(d).value, "ss:Position") == AttrText(position)
      ensures Lookup(Attributes(d).value, "ss:Weight") == AttrText(weight)
      ensures Lookup(Attributes(d).value, "ss:LineStyle") == AttrText(lineStyle)
    {
      var d := Describable(["color", "position", "weight", "line_style"],
        map["color" := color, "position" := position, "weight" := weight, "line_style" := lineStyle]);
      BorderAttributes(d);
      d
    }
  }

  /** The four keys of a border name four distinct attributes, so each
      field's text sits under its own name. */
  lemma BorderAttributes(d: Describable)
    requires d.keys == ["color", "position", "weight", "line_style"]
    requires "color" in d.values && "position" in d.values && "weight" in d.values && "line_style" in d.values
    ensures Attributes(d).Ok?
    ensures Lookup(Attributes(d).value, "ss:Color") == AttrText(d.values["color"])
    ensures Lookup(Attributes(d).value, "ss:Position") == AttrText(d.values["position"])
    ensures Lookup(Attributes(d).value, "ss:Weight") == AttrText(d.values["weight"])
    ensures Lookup(Attributes(d).value, "ss:LineStyle") == AttrText(d.values["line_style"])
  {
    var keys := d.keys;
    assert keys[0] == "color" && keys[1] == "position" && keys[2] == "weight" && keys[3] == "line_style";
    assert HasAllKeys(d);
    ColorName();
    PositionName();
    WeightName();
    LineStyleName();
    FourAttributes(d, "ss:Color", "ss:Position", "ss:Weight", "ss:LineStyle");
  }

  lemma ColorName()
    ensures AttrName("color") == "ss:Color"
  {
    WordAttrName("color", "ss:Color");
  }

  lemma PositionName()
    ensures AttrName("position") == "ss:Position"
  {
    WordAttrName("position", "ss:Position");
  }

  lemma WeightName()
    ensures AttrName("weight") == "ss:Weight"
  {
    WordAttrName("weight", "ss:Weight");
  }

  lemma LineStyleName()
    ensures AttrName("line_style") == "ss:LineStyle"
  {
    TwoWordAttrName("line_style", "line", "style", "ss:LineStyle");
  }

  /** The writer hooks of Border and Borders. */
  const BorderHook: Writer.Hook := Writer.Border
  const BordersHook: Writer.Hook := Writer.Borders

  lemma BorderHooks()
    ensures Writer.HookName(BorderHook) == "border" && Writer.NodeName(BorderHook) == "Border"
    ensures Writer.HookName(BordersHook) == "borders" && Writer.NodeName(BordersHook) == "Borders"
    ensures Writer.InStyles(BorderHook) && Writer.InStyles(BordersHook)
  {
  }

  /** The defaults are the canonical values of :thin and :continuous. */
  lemma DefaultsCanonical()
    ensures Canonical(Weight, "thin") == Some(Int(1))
    ensures Canonical(LineStyle, "continuous") == Some(Str("Continuous"))
  {
    WeightTable();
    LineStyleTable();
  }
}
