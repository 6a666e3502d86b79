/** The enum codec behind the value objects' enum-backed fields: fixed
    tables from a symbolic key (`:thin`) to a canonical wire value (`1`).
    A field can be given either form; both store the canonical value. */
module Enums {
  import opened Values

  /** An enum table: (symbolic key, canonical value) pairs, in table order. */
  type Table = seq<(string, Value)>

  /** Keys are distinct, canonical values are distinct, and no canonical
      value is a Symbol or nil (so a key and a value are never confused). */
  predicate WellFormed(t: Table)
  {
    KeysDistinct(t) && ValuesDistinct(t) && ValuesPlain(t)
  }

  predicate KeysDistinct(t: Table)
  {
    forall i, j :: 0 <= i < j < |t| ==> t[i].0 != t[j].0
  }

  predicate ValuesDistinct(t: Table)
  {
    forall i, j :: 0 <= i < j < |t| ==> t[i].1 != t[j].1
  }

  predicate ValuesPlain(t: Table)
  {
    forall i :: 0 <= i < |t| ==> !t[i].1.Sym? && !t[i].1.Nil?
  }

  predicate HasValue(t: Table, v: Value)
  {
    exists i :: 0 <= i < |t| && t[i].1 == v
  }

  /** The canonical value of a symbolic key. */
  function Canonical(t: Table, key: string): (r: Option<Value>)
    ensures r.Some? <==> exists i :: 0 <= i < |t| && t[i].0 == key
    ensures r.Some? ==> HasValue(t, r.value)
  {
    if t == [] then None
    else if t[0].0 == key then Some(t[0].1)
    else
      var r := Canonical(t[1..], key);
      assert r.Some? ==> HasValue(t[1..], r.value);
      assert forall i :: 1 <= i < |t| ==> t[i] == t[1..][i - 1];
      r
  }

  /** The symbolic key of a canonical value. */
  function KeyOf(t: Table, v: Value): (r: Option<string>)
    ensures r.Some? <==> HasValue(t, v)
  {
    if t == [] then None
    else if t[0].1 == v then Some(t[0].0)
    else
      assert forall i :: 1 <= i < |t| ==> t[i] == t[1..][i - 1];
      KeyOf(t[1..], v)
  }

  /** Setting an enum field: a known key gives its canonical value, a
      canonical value passes through unchanged, anything else is
      InvalidEnumValue. */
  function Encode(t: Table, v: Value): (r: Result<Value>)
    ensures r.Ok? <==> (v.Sym? && Canonical(t, v.name).Some?) || HasValue(t, v)
    ensures r.Ok? ==> HasValue(t, r.value)
    ensures r.Err? ==> r.error == InvalidEnumValue
  {
    if v.Sym? && Canonical(t, v.name).Some? then Ok(Canonical(t, v.name).value)
    else if HasValue(t, v) then Ok(v)
    else Err(InvalidEnumValue)
  }

  /** Encoding is idempotent: an already-canonical value encodes to itself. */
  lemma EncodeIdempotent(t: Table, v: Value)
    requires WellFormed(t)
    requires Encode(t, v).Ok?
    ensures Encode(t, Encode(t, v).value) == Encode(t, v)
  {
    var c := Encode(t, v).value;
    var i :| 0 <= i < |t| && t[i].1 == c;
    assert !c.Sym?;
  }

  /** Setting a field by key or by that key's canonical value stores the same. */
  lemma KeyOrValueAgree(t: Table, key: string)
    requires WellFormed(t)
    requires Canonical(t, key).Some?
    ensures Encode(t, Sym(key)) == Encode(t, Canonical(t, key).value) == Ok(Canonical(t, key).value)
  {
    var c := Canonical(t, key).value;
    var i :| 0 <= i < |t| && t[i].1 == c;
    assert !c.Sym?;
  }

  /** In a well-formed table the key of a key's canonical value is that key:
      key and value determine each other. */
  lemma {:induction false} KeyOfCanonical(t: Table, key: string)
    requires WellFormed(t)
    requires Canonical(t, key).Some?
    ensures KeyOf(t, Canonical(t, key).value) == Some(key)
  {
    if t[0].0 != key {
      assert WellFormed(t[1..]) by {
        assert forall i :: 0 <= i < |t[1..]| ==> t[1..][i] == t[i + 1];
      }
      var c := Canonical(t, key).value;
      var j :| 0 <= j < |t[1..]| && t[1..][j].1 == c;
      assert t[0].1 == t[j + 1].1 ==> 0 == j + 1;
      KeyOfCanonical(t[1..], key);
    }
  }

  /** Assigning an enum-backed field: nil clears it, any other value must
      be a key or a canonical value of the table. */
  function Assign(t: Table, v: Value): (r: Result<Value>)
    ensures r.Ok? <==> v == Nil || Encode(t, v).Ok?
    ensures v == Nil ==> r == Ok(Nil)
    ensures r.Ok? ==> r.value == Nil || HasValue(t, r.value)
    ensures r.Err? ==> r.error == InvalidEnumValue
  {
    if v == Nil then Ok(Nil) else Encode(t, v)
  }

  /** Assigning by key or by that key's canonical value stores the same. */
  lemma AssignByKeyOrValue(t: Table, key: string)
    requires WellFormed(t)
    requires Canonical(t, key).Some?
    ensures Assign(t, Sym(key)) == Assign(t, Canonical(t, key).value) == Ok(Canonical(t, key).value)
  {
    KeyOrValueAgree(t, key);
    var c := Canonical(t, key).value;
    var i :| 0 <= i < |t| && t[i].1 == c;
    assert c != Nil;
  }

  /** Reassigning a field its own stored value changes nothing. */
  lemma AssignIdempotent(t: Table, v: Value)
    requires WellFormed(t)
    requires Assign(t, v).Ok?
    ensures Assign(t, Assign(t, v).value) == Assign(t, v)
  {
    if v != Nil {
      EncodeIdempotent(t, v);
      var c := Encode(t, v).value;
      var i :| 0 <= i < |t| && t[i].1 == c;
    }
  }

  // The tables of Xmlss::Style::Border and of the Data element's type.

  const Position: Table := [
    ("left", Str("Left")), ("top", Str("Top")), ("right", Str("Right")),
    ("bottom", Str("Bottom")), ("diagonal_left", Str("DiagonalLeft")),
    ("diagonal_right", Str("DiagonalRight"))]

  const Weight: Table := [
    ("hairline", Int(0)), ("thin", Int(1)), ("medium", Int(2)), ("thick", Int(3))]

  const LineStyle: Table := [
    ("none", Str("None")), ("continuous", Str("Continuous")), ("dash", Str("Dash")),
    ("dot", Str("Dot")), ("dash_dot", Str("DashDot")), ("dash_dot_dot", Str("DashDotDot"))]

  /** The ss:Type of a Data element. */
  const DataType: Table := [
    ("number", Str("Number")), ("date_time", Str("DateTime")), ("boolean", Str("Boolean")),
    ("string", Str("String")), ("error", Str("Error"))]

  lemma PositionWellFormed()
    ensures WellFormed(Position)
  {
    PositionKeys();
    PositionValues();
  }

  lemma PositionKeys()
    ensures KeysDistinct(Position)
  {
  }

  lemma PositionValues()
    ensures ValuesDistinct(Position) && ValuesPlain(Position)
  {
  }

  lemma PositionTable()
    ensures Canonical(Position, "left") == Some(Str("Left"))
    ensures Canonical(Position, "top") == Some(Str("Top"))
    ensures Canonical(Position, "right") == Some(Str("Right"))
    ensures Canonical(Position, "bottom") == Some(Str("Bottom"))
    ensures Canonical(Position, "diagonal_left") == Some(Str("DiagonalLeft"))
    ensures Canonical(Position, "diagonal_right") == Some(Str("DiagonalRight"))
  {
  }

  lemma WeightWellFormed()
    ensures WellFormed(Weight)
  {
    WeightKeys();
    WeightValues();
  }

  lemma WeightKeys()
    ensures KeysDistinct(Weight)
  {
  }

  lemma WeightValues()
    ensures ValuesDistinct(Weight) && ValuesPlain(Weight)
  {
  }

  lemma WeightTable()
    ensures Canonical(Weight, "hairline") == Some(Int(0))
    ensures Canonical(Weight, "thin") == Some(Int(1))
    ensures Canonical(Weight, "medium") == Some(Int(2))
    ensures Canonical(Weight, "thick") == Some(Int(3))
  {
  }

  lemma LineStyleWellFormed()
    ensures WellFormed(LineStyle)
  {
    LineStyleKeys();
    LineStyleValues();
  }

  lemma LineStyleKeys()
    ensures KeysDistinct(LineStyle)
  {
  }

  lemma LineStyleValues()
    ensures ValuesDistinct(LineStyle) && ValuesPlain(LineStyle)
  {
  }

  lemma LineStyleTable()
    ensures Canonical(LineStyle, "none") == Some(Str("None"))
    ensures Canonical(LineStyle, "continuous") == Some(Str("Continuous"))
    ensures Canonical(LineStyle, "dash") == Some(Str("Dash"))
    ensures Canonical(LineStyle, "dot") == Some(Str("Dot"))
    ensures Canonical(LineStyle, "dash_dot") == Some(Str("DashDot"))
    ensures Canonical(LineStyle, "dash_dot_dot") == Some(Str("DashDotDot"))
  {
  }

  lemma DataTypeWellFormed()
    ensures WellFormed(DataType)
  {
    DataTypeKeys();
    DataTypeValues();
  }

  lemma DataTypeKeys()
    ensures KeysDistinct(DataType)
  {
  }

  lemma DataTypeValues()
    ensures ValuesDistinct(DataType) && ValuesPlain(DataType)
  {
  }

  lemma DataTypeTable()
    ensures Canonical(DataType, "string") == Some(Str("String"))
    ensures Canonical(DataType, "number") == Some(Str("Number"))
  {
  }
}
