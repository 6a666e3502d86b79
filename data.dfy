/** Xmlss::Element::Data: a cell's value and its ss:Type. */
module DataElement {
  import opened Values
  import opened AttrLists
  import opened Formatting
  import Enums

  datatype Data = Data(value: Value, dataType: Value)

  /** Data.new(value, :type => t): the type given by key or canonical
      value; without one the type is String. */
  function NewData(value: Value, dataType: Option<Value>): (r: Result<Data>)
    ensures r.Ok? ==> r.value.value == value && Enums.HasValue(Enums.DataType, r.value.dataType)
    ensures dataType.None? ==> r.Ok? && r.value.dataType == Str("String")
    ensures dataType.Some? ==> (r.Ok? <==> Enums.Encode(Enums.DataType, dataType.value).Ok?)
    ensures dataType.Some? && r.Ok? ==> r.value.dataType == Enums.Encode(Enums.DataType, dataType.value).value
    ensures r.Err? ==> r.error == InvalidEnumValue
  {
    match dataType
    case None =>
      assert Enums.DataType[3].1 == Str("String");
      Ok(Data(value, Str("String")))
    case Some(t) =>
      match Enums.Encode(Enums.DataType, t)
      case Ok(c) => Ok(Data(value, c))
      case Err(e) => Err(e)
  }

  /** What the writer is handed for a Data element: its type, which it
      writes as the one attribute ss:Type holding the type's canonical
      text. */
  function Describe(d: Data): (r: Describable)
    ensures HasAllKeys(r)
    ensures Enums.HasValue(Enums.DataType, d.dataType) ==>
      Attributes(r) == Ok([("ss:Type", Display(d.dataType))])
  {
    var r := Describable(["type"], map["type" := d.dataType]);
    if Enums.HasValue(Enums.DataType, d.dataType) then
      DataTypeText(d.dataType);
      TypeAttrName();
      SingleKeyAttributes("type", d.dataType);
      r
    else r
  }

  /** A canonical Data type is never an omitted value: it is written as its
      text. */
  lemma DataTypeText(v: Value)
    requires Enums.HasValue(Enums.DataType, v)
    ensures AttrText(v) == Some(Display(v))
  {
  }
}
