/** Xmlss::Cell: a worksheet cell's position, style, link, formula,
    merge spans and data. */
module CellElement {
  import opened Values
  import opened AttrLists
  import opened Formatting
  import DataElement

  /** merge_across= / merge_down=: nil clears it; an Integer above 0 is
      kept, one at or below 0 is stored as nil; anything else (a string, a
      Float) is an ArgumentError. */
  function MergeSpan(v: Value): (r: Result<Value>)
    ensures r.Ok? <==> v == Nil || v.Int?
    ensures r.Err? ==> r.error == ArgumentError
    ensures r.Ok? ==> r.value == Nil || (r.value.Int? && r.value.i > 0)
    ensures r.Ok? && v.Int? ==> (r.value == v <==> v.i > 0)
    ensures r.Ok? ==> (r.value == Nil <==> v == Nil || (v.Int? && v.i <= 0))
  {
    if v == Nil then Ok(Nil)
    else if !v.Int? then Err(ArgumentError)
    else if v.i > 0 then Ok(v)
    else Ok(Nil)
  }

  /** Storing a stored span again changes nothing. */
  lemma MergeSpanIdempotent(v: Value)
    requires MergeSpan(v).Ok?
    ensures MergeSpan(MergeSpan(v).value) == MergeSpan(v)
  {
  }

  class Cell {
    var index: Value
    var styleId: Value
    var data: Option<DataElement.Data>
    var comment: Value
    var formula: Value
    var href: Value
    var mergeAcross: Value
    var mergeDown: Value

    /** A new cell: every field nil. */
    constructor()
      ensures index == Nil && styleId == Nil && data == None && comment == Nil
      ensures formula == Nil && href == Nil && mergeAcross == Nil && mergeDown == Nil
    {
      index := Nil;
      styleId := Nil;
      data := None;
      comment := Nil;
      formula := Nil;
      href := Nil;
      mergeAcross := Nil;
      mergeDown := Nil;
    }

    method SetIndex(v: Value)
      modifies this
      ensures index == v
      ensures styleId == old(styleId) && data == old(data) && comment == old(comment)
      ensures formula == old(formula) && href == old(href)
      ensures mergeAcross == old(mergeAcross) && mergeDown == old(mergeDown)
    {
      index := v;
    }

    method SetStyleId(v: Value)
      modifies this
      ensures styleId == v
      ensures index == old(index) && data == old(data) && comment == old(comment)
      ensures formula == old(formula) && href == old(href)
      ensures mergeAcross == old(mergeAcross) && mergeDown == old(mergeDown)
    {
      styleId := v;
    }

    method SetHref(v: Value)
      modifies this
      ensures href == v
      ensures index == old(index) && styleId == old(styleId) && data == old(data)
      ensures comment == old(comment) && formula == old(formula)
      ensures mergeAcross == old(mergeAcross) && mergeDown == old(mergeDown)
    {
      href := v;
    }

    method SetFormula(v: Value)
      modifies this
      ensures formula == v
      ensures index == old(index) && styleId == old(styleId) && data == old(data)
      ensures comment == old(comment) && href == old(href)
      ensures mergeAcross == old(mergeAcross) && mergeDown == old(mergeDown)
    {
      formula := v;
    }

    method SetComment(v: Value)
      modifies this
      ensures comment == v
      ensures index == old(index) && styleId == old(styleId) && data == old(data)
      ensures formula == old(formula) && href == old(href)
      ensures mergeAcross == old(mergeAcross) && mergeDown == old(mergeDown)
    {
      comment := v;
    }

    /** data=: the Data object is stored as it is. */
    method SetData(d: DataElement.Data)
      modifies this
      ensures data == Some(d)
      ensures index == old(index) && styleId == old(styleId) && comment == old(comment)
      ensures formula == old(formula) && href == old(href)
      ensures mergeAcross == old(mergeAcross) && mergeDown == old(mergeDown)
    {
      data := Some(d);
    }

    method SetMergeAcross(v: Value) returns (r: Outcome)
      modifies this
      ensures MergeSpan(v).Err? ==> r == Fail(ArgumentError) && mergeAcross == old(mergeAcross)
      ensures MergeSpan(v).Ok? ==> r == Pass && mergeAcross == MergeSpan(v).value
      ensures index == old(index) && styleId == old(styleId) && data == old(data)
      ensures comment == old(comment) && formula == old(formula) && href == old(href)
      ensures mergeDown == old(mergeDown)
    {
      var m := MergeSpan(v);
      if m.Err? {
        return Fail(m.error);
      }
      mergeAcross := m.value;
      r := Pass;
    }

    method SetMergeDown(v: Value) returns (r: Outcome)
      modifies this
      ensures MergeSpan(v).Err? ==> r == Fail(ArgumentError) && mergeDown == old(mergeDown)
      ensures MergeSpan(v).Ok? ==> r == Pass && mergeDown == MergeSpan(v).value
      ensures index == old(index) && styleId == old(styleId) && data == old(data)
      ensures comment == old(comment) && formula == old(formula) && href == old(href)
      ensures mergeAcross == old(mergeAcross)
    {
      var m := MergeSpan(v);
      if m.Err? {
        return Fail(m.error);
      }
      mergeDown := m.value;
      r := Pass;
    }

    /** What the writer is handed. The style and link go under the alias
        keys `style_i_d` and `h_ref`, whose classified names are the
        attribute names StyleID and HRef. */
    function Describe(): (d: Describable)
      reads this
      ensures HasAllKeys(d)
      ensures Attributes(d).Ok?
      ensures Lookup(Attributes(d).value, "ss:Index") == AttrText(index)
      ensures Lookup(Attributes(d).value, "ss:StyleID") == AttrText(styleId)
      ensures Lookup(Attributes(d).value, "ss:Formula") == AttrText(formula)
      ensures Lookup(Attributes(d).value, "ss:HRef") == AttrText(href)
      ensures Lookup(Attributes(d).value, "ss:MergeAcross") == AttrText(mergeAcross)
      ensures Lookup(Attributes(d).value, "ss:MergeDown") == AttrText(mergeDown)
    {
      var d := Describable(["index", "style_i_d", "formula", "h_ref", "merge_across", "merge_down"],
        map["index" := index, "style_i_d" := styleId, "formula" := formula, "h_ref" := href,
            "merge_across" := mergeAcross, "merge_down" := mergeDown]);
      CellValues(d.values, index, styleId, formula, href, mergeAcross, mergeDown);
      CellAttributes(d);
      d
    }
  }

  // Reads the six entries back from the map a cell hands the writer.
  lemma CellValues(m: map<string, Value>, index: Value, styleId: Value, formula: Value,
                   href: Value, mergeAcross: Value, mergeDown: Value)
    requires m == map["index" := index, "style_i_d" := styleId, "formula" := formula, "h_ref" := href,
                      "merge_across" := mergeAcross, "merge_down" := mergeDown]
    ensures "index" in m && m["index"] == index
    ensures "style_i_d" in m && m["style_i_d"] == styleId
    ensures "formula" in m && m["formula"] == formula
    ensures "h_ref" in m && m["h_ref"] == href
    ensures "merge_across" in m && m["merge_across"] == mergeAcross
    ensures "merge_down" in m && m["merge_down"] == mergeDown
  {
  }

  /** The six keys of a cell name six distinct attributes, so each field's
      text sits under its own name. */
  lemma CellAttributes(d: Describable)
    requires d.keys == ["index", "style_i_d", "formula", "h_ref", "merge_across", "merge_down"]
    requires "index" in d.values && "style_i_d" in d.values && "formula" in d.values
    requires "h_ref" in d.values && "merge_across" in d.values && "merge_down" in d.values
    ensures HasAllKeys(d) && Attributes(d).Ok?
    ensures Lookup(Attributes(d).value, "ss:Index") == AttrText(d.values["index"])
    ensures Lookup(Attributes(d).value, "ss:StyleID") == AttrText(d.values["style_i_d"])
    ensures Lookup(Attributes(d).value, "ss:Formula") == AttrText(d.values["formula"])
    ensures Lookup(Attributes(d).value, "ss:HRef") == AttrText(d.values["h_ref"])
    ensures Lookup(Attributes(d).value, "ss:MergeAcross") == AttrText(d.values["merge_across"])
    ensures Lookup(Attributes(d).value, "ss:MergeDown") == AttrText(d.values["merge_down"])
  {
    var keys := d.keys;
    assert keys[0] == "index" && keys[1] == "style_i_d" && keys[2] == "formula";
    assert keys[3] == "h_ref" && keys[4] == "merge_across" && keys[5] == "merge_down";
    assert HasAllKeys(d);
    IndexName();
    StyleIdName();
    FormulaName();
    HrefName();
    MergeAcrossName();
    MergeDownName();
    CellNamesDistinct(keys);
    DistinctAttributes(d, 0);
    DistinctAttributes(d, 1);
    DistinctAttributes(d, 2);
    DistinctAttributes(d, 3);
    DistinctAttributes(d, 4);
    DistinctAttributes(d, 5);
  }

  // The six names are pairwise different; a step of CellAttributes.
  lemma CellNamesDistinct(keys: seq<string>)
    requires |keys| == 6
    requires AttrName(keys[0]) == "ss:Index" && AttrName(keys[1]) == "ss:StyleID"
    requires AttrName(keys[2]) == "ss:Formula" && AttrName(keys[3]) == "ss:HRef"
    requires AttrName(keys[4]) == "ss:MergeAcross" && AttrName(keys[5]) == "ss:MergeDown"
    ensures NamesDistinct(keys)
  {
    var names := ["ss:Index", "ss:StyleID", "ss:Formula", "ss:HRef", "ss:MergeAcross", "ss:MergeDown"];
    forall k | 0 <= k < 6
      ensures AttrName(keys[k]) == names[k]
    {
      if k == 0 {} else if k == 1 {} else if k == 2 {} else if k == 3 {} else if k == 4 {} else {}
    }
    forall i, j | 0 <= i < j < 6
      ensures AttrName(keys[i]) != AttrName(keys[j])
    {
      SixDistinct(names, i, j);
    }
  }

  // The six names differ in length, except StyleID and Formula, which
  // differ in their fourth character; a step of CellNamesDistinct.
  lemma SixDistinct(names: seq<string>, i: nat, j: nat)
    requires names == ["ss:Index", "ss:StyleID", "ss:Formula", "ss:HRef", "ss:MergeAcross", "ss:MergeDown"]
    requires i < j < 6
    ensures names[i] != names[j]
  {
    if i == 1 && j == 2 {
      assert names[i][3] != names[j][3];
    } else {
      assert |names[i]| != |names[j]|;
    }
  }

  lemma IndexName()
    ensures AttrName("index") == "ss:Index"
  {
    WordAttrName("index", "ss:Index");
  }

  lemma FormulaName()
    ensures AttrName("formula") == "ss:Formula"
  {
    WordAttrName("formula", "ss:Formula");
  }

  lemma StyleIdName()
    ensures AttrName("style_i_d") == "ss:StyleID"
  {
    ThreeWordAttrName("style_i_d", "style", "i", "d", "ss:StyleID");
  }

  lemma HrefName()
    ensures AttrName("h_ref") == "ss:HRef"
  {
    TwoWordAttrName("h_ref", "h", "ref", "ss:HRef");
  }

  lemma MergeAcrossName()
    ensures AttrName("merge_across") == "ss:MergeAcross"
  {
    TwoWordAttrName("merge_across", "merge", "across", "ss:MergeAcross");
  }

  lemma MergeDownName()
    ensures AttrName("merge_down") == "ss:MergeDown"
  {
    TwoWordAttrName("merge_down", "merge", "down", "ss:MergeDown");
  }

  /** Why the aliases exist: classifying `style_id` would give StyleId and
      `href` Href, while SpreadsheetML wants StyleID and HRef. */
  lemma AliasNames()
    ensures Classify("style_i_d") == "StyleID"
    ensures Classify("h_ref") == "HRef"
  {
    StyleIdAlias();
    HrefAlias();
  }

  /** `style_i_d` is the three words style, i and d, each capitalised. */
  lemma StyleIdAlias()
    ensures Classify("style_i_d") == "StyleID"
  {
    assert Initial("style") + Initial("i") + Initial("d") == "StyleID";
    assert "style_i_d" == "style" + "_" + "i" + "_" + "d";
    ThreeWordClassify("style", "i", "d");
  }

  /** `h_ref` is the two words h and ref, each capitalised. */
  lemma HrefAlias()
    ensures Classify("h_ref") == "HRef"
  {
    assert Initial("h") + Initial("ref") == "HRef";
    assert "h_ref" == "h" + "_" + "ref";
    TwoWordClassify("h", "ref");
  }
}
