/** The writer's class-level helpers: `coerce` (a value as it goes into
    markup), `classify` (a symbolic key as a markup attribute name) and
    `attributes` (a describable object as a set of `ss:` attributes). */
module Formatting {
  import opened Values
  import opened AttrLists

  /** The namespace prefix of every emitted attribute. */
  const Namespace: string := "ss"

  // ---------------------------------------------------------------- coerce

  /** true becomes 1, false and "" become nil, anything else is kept. */
  function Coerce(v: Value): (r: Value)
    ensures v == Bool(true) ==> r == Int(1)
    ensures r == Nil <==> v == Bool(false) || v == Str("") || v == Nil
    ensures v != Bool(true) && r != Nil ==> r == v
  {
    if v == Bool(true) then Int(1)
    else if v == Bool(false) || v == Str("") then Nil
    else v
  }

  lemma CoerceIdempotent(v: Value)
    ensures Coerce(Coerce(v)) == Coerce(v)
  {
  }

  /** The text of an attribute, or None when the attribute is omitted. */
  function AttrText(v: Value): (r: Option<string>)
    ensures r.None? <==> v == Bool(false) || v == Str("") || v == Nil
    ensures v == Bool(true) ==> r == Some("1")
    ensures v != Bool(true) && r.Some? ==> r.value == Display(v)
  {
    var c := Coerce(v);
    if c == Nil then None else Some(Display(c))
  }

  // -------------------------------------------------------------- classify

  function UpperChar(c: char): char
  {
    if 'a' <= c <= 'z' then (c as int - 32) as char else c
  }

  function LowerChar(c: char): char
  {
    if 'A' <= c <= 'Z' then (c as int + 32) as char else c
  }

  function Lower(s: string): (r: string)
    ensures |r| == |s| && forall i :: 0 <= i < |s| ==> r[i] == LowerChar(s[i])
  {
    seq(|s|, i requires 0 <= i < |s| => LowerChar(s[i]))
  }

  /** String#capitalize: first character upper-case, the rest lower-case. */
  function Capitalize(seg: string): (r: string)
    ensures |r| == |seg|
    ensures seg != [] ==> r[0] == UpperChar(seg[0])
    ensures forall i :: 1 <= i < |seg| ==> r[i] == LowerChar(seg[i])
  {
    if seg == [] then [] else [UpperChar(seg[0])] + Lower(seg[1..])
  }

  /** The fields of `s` between underscores, empty fields included. */
  function Segments(s: string): (r: seq<string>)
    ensures |r| >= 1
    ensures forall i :: 0 <= i < |r| ==> '_' !in r[i]
    ensures Join(r) == s
  {
    if s == [] then [[]]
    else
      var rest := Segments(s[1..]);
      if s[0] == '_' then
        assert Join([[]] + rest) == [] + "_" + Join(rest);
        [[]] + rest
      else
        var r := [[s[0]] + rest[0]] + rest[1..];
        assert Join(r) == [s[0]] + Join(rest) by {
          if |rest| > 1 {
            assert Join(rest) == rest[0] + "_" + Join(rest[1..]);
          }
        }
        r
  }

  /** The fields joined back with underscores. */
  function Join(segs: seq<string>): string
    requires |segs| >= 1
  {
    if |segs| == 1 then segs[0] else segs[0] + "_" + Join(segs[1..])
  }

  function CapitalizeAll(segs: seq<string>): string
  {
    if segs == [] then [] else Capitalize(segs[0]) + CapitalizeAll(segs[1..])
  }

  /** Writer.classify: split on `_`, capitalise each field, concatenate. */
  function Classify(key: string): (r: string)
    ensures '_' !in key ==> r == Capitalize(key)
  {
    if '_' !in key then
      SegmentsNoUnderscore(key);
      assert CapitalizeAll([key]) == Capitalize(key) + CapitalizeAll([key][1..]);
      assert [key][1..] == [];
      CapitalizeAll(Segments(key))
    else CapitalizeAll(Segments(key))
  }

  lemma {:induction false} SegmentsNoUnderscore(s: string)
    requires '_' !in s
    ensures Segments(s) == [s]
  {
    if s != [] {
      SegmentsNoUnderscore(s[1..]);
      assert [s[0]] + s[1..] == s;
    }
  }

  /** An underscore after an underscore-free field splits off that field. */
  lemma {:induction false} SegmentsUnderscore(a: string, b: string)
    requires '_' !in a
    ensures Segments(a + "_" + b) == [a] + Segments(b)
  {
    var s := a + "_" + b;
    if a == [] {
      assert s[0] == '_' && s[1..] == b;
    } else {
      assert s[0] == a[0] && s[1..] == a[1..] + "_" + b;
      SegmentsUnderscore(a[1..], b);
      assert [a[0]] + a[1..] == a;
    }
  }

  /** A lower-case word is capitalised by upper-casing its first letter. */
  lemma CapitalizeWord(w: string)
    requires w != [] && forall i :: 0 <= i < |w| ==> 'a' <= w[i] <= 'z'
    ensures Capitalize(w) == [UpperChar(w[0])] + w[1..]
  {
    assert Lower(w[1..]) == w[1..];
  }

  /** Classifying one lower-case word upper-cases its first letter. */
  lemma ClassifyWord(w: string)
    requires w != [] && forall i :: 0 <= i < |w| ==> 'a' <= w[i] <= 'z'
    ensures Classify(w) == [UpperChar(w[0])] + w[1..]
  {
    SegmentsNoUnderscore(w);
    CapitalizeWord(w);
    assert [w][1..] == [];
    assert CapitalizeAll([w]) == Capitalize(w) + CapitalizeAll([]);
  }

  /** Two underscore-free fields joined by an underscore classify to
      both fields capitalised. */
  lemma ClassifyTwoFields(a: string, b: string)
    requires '_' !in a && '_' !in b
    ensures Classify(a + "_" + b) == Capitalize(a) + Capitalize(b)
  {
    SegmentsUnderscore(a, b);
    SegmentsNoUnderscore(b);
    var segs := [a, b];
    assert segs[1..] == [b] && [b][1..] == [];
    assert CapitalizeAll([b]) == Capitalize(b) + CapitalizeAll([]);
  }

  /** Three underscore-free fields joined by underscores classify to the
      three fields capitalised. */
  lemma ClassifyThreeFields(a: string, b: string, c: string)
    requires '_' !in a && '_' !in b && '_' !in c
    ensures Classify(a + "_" + b + "_" + c) == Capitalize(a) + (Capitalize(b) + Capitalize(c))
  {
    var bc := b + "_" + c;
    assert a + "_" + b + "_" + c == a + "_" + bc;
    SegmentsUnderscore(a, bc);
    SegmentsUnderscore(b, c);
    SegmentsNoUnderscore(c);
    var segs := [a, b, c];
    assert Segments(a + "_" + bc) == segs;
    assert segs[1..] == [b, c] && segs[1..][1..] == [c] && [c][1..] == [];
    var x, y, z := Capitalize(a), Capitalize(b), Capitalize(c);
    assert CapitalizeAll([c]) == z + CapitalizeAll([]);
    assert CapitalizeAll(segs) == x + (y + z);
  }

  /** The same name computed character by character: an underscore is
      dropped, the character after it (or the first one) is upper-cased and
      every other character lower-cased. */
  function ClassifyScan(s: string, atStart: bool): string
  {
    if s == [] then []
    else if s[0] == '_' then ClassifyScan(s[1..], true)
    else [if atStart then UpperChar(s[0]) else LowerChar(s[0])] + ClassifyScan(s[1..], false)
  }

  lemma {:induction false} ScanSegments(s: string)
    ensures ClassifyScan(s, true) == CapitalizeAll(Segments(s))
    ensures ClassifyScan(s, false) == Lower(Segments(s)[0]) + CapitalizeAll(Segments(s)[1..])
  {
    if s != [] {
      var rest := Segments(s[1..]);
      ScanSegments(s[1..]);
      if s[0] == '_' {
        assert Segments(s)[1..] == rest;
      } else {
        var seg := [s[0]] + rest[0];
        assert Segments(s) == [seg] + rest[1..];
        assert seg[1..] == rest[0];
        assert Lower(seg) == [LowerChar(s[0])] + Lower(rest[0]);
      }
    }
  }

  /** The two definitions agree. */
  lemma ClassifyIsScan(key: string)
    ensures Classify(key) == ClassifyScan(key, true)
  {
    ScanSegments(key);
  }

  /** No underscore survives, and nothing else is lost: the name is the
      key's length minus its underscores. */
  lemma {:induction false} ScanShape(s: string, atStart: bool)
    ensures '_' !in ClassifyScan(s, atStart)
    ensures |ClassifyScan(s, atStart)| == |s| - multiset(s)['_']
  {
    if s != [] {
      ScanShape(s[1..], false);
      ScanShape(s[1..], true);
      assert s == [s[0]] + s[1..];
      assert multiset(s) == multiset{s[0]} + multiset(s[1..]);
    }
  }

  /** Classification ignores the case of the key: "HiThere" and "hithere"
      both give "Hithere", "Hi_There" and "hi_there" both give "HiThere". */
  lemma {:induction false} ScanIgnoresCase(s: string, atStart: bool)
    ensures ClassifyScan(Lower(s), atStart) == ClassifyScan(s, atStart)
  {
    if s != [] {
      assert Lower(s)[1..] == Lower(s[1..]);
      ScanIgnoresCase(s[1..], true);
      ScanIgnoresCase(s[1..], false);
    }
  }

  lemma ClassifyIgnoresCase(key: string)
    ensures Classify(Lower(key)) == Classify(key)
    ensures '_' !in Classify(key)
  {
    ClassifyIsScan(key);
    ClassifyIsScan(Lower(key));
    ScanIgnoresCase(key, true);
    ScanShape(key, true);
  }

  /** The markup name of a key: "ss:" + classify(key). */
  function AttrName(key: string): (r: string)
    ensures |r| >= 3 && r[..3] == "ss:"
  {
    Namespace + ":" + Classify(key)
  }

  /** A lower-case word with its first letter upper-cased. */
  function Initial(w: string): (r: string)
    requires w != []
    ensures |r| == |w| && r[0] == UpperChar(w[0]) && r[1..] == w[1..]
  {
    [UpperChar(w[0])] + w[1..]
  }

  /** The markup name of a lower-case word: "ss:" and the word with its
      first letter upper-cased. */
  lemma WordAttrName(w: string, name: string)
    requires w != [] && forall i :: 0 <= i < |w| ==> 'a' <= w[i] <= 'z'
    requires name == "ss:" + Initial(w)
    ensures AttrName(w) == name
  {
    ClassifyWord(w);
  }

  /** The markup name of two lower-case words joined by an underscore:
      "ss:" and both words with their first letters upper-cased
      (`line_style` → ss:LineStyle). */
  lemma TwoWordAttrName(key: string, a: string, b: string, name: string)
    requires a != [] && forall i :: 0 <= i < |a| ==> 'a' <= a[i] <= 'z'
    requires b != [] && forall i :: 0 <= i < |b| ==> 'a' <= b[i] <= 'z'
    requires key == a + "_" + b && name == "ss:" + Initial(a) + Initial(b)
    ensures AttrName(key) == name
  {
    TwoWordClassify(a, b);
    PrefixJoin(Initial(a), Initial(b));
  }

  /** The same for three words (`auto_fit_width` → ss:AutoFitWidth). */
  lemma ThreeWordAttrName(key: string, a: string, b: string, c: string, name: string)
    requires a != [] && forall i :: 0 <= i < |a| ==> 'a' <= a[i] <= 'z'
    requires b != [] && forall i :: 0 <= i < |b| ==> 'a' <= b[i] <= 'z'
    requires c != [] && forall i :: 0 <= i < |c| ==> 'a' <= c[i] <= 'z'
    requires key == a + "_" + b + "_" + c && name == "ss:" + Initial(a) + Initial(b) + Initial(c)
    ensures AttrName(key) == name
  {
    ThreeWordClassify(a, b, c);
    PrefixJoin3(Initial(a), Initial(b), Initial(c));
  }

  // Classifying two words; a step of TwoWordAttrName.
  lemma TwoWordClassify(a: string, b: string)
    requires a != [] && forall i :: 0 <= i < |a| ==> 'a' <= a[i] <= 'z'
    requires b != [] && forall i :: 0 <= i < |b| ==> 'a' <= b[i] <= 'z'
    ensures Classify(a + "_" + b) == Initial(a) + Initial(b)
  {
    ClassifyTwoFields(a, b);
    CapitalizeWord(a);
    CapitalizeWord(b);
  }

  // Classifying three words; a step of ThreeWordAttrName.
  lemma ThreeWordClassify(a: string, b: string, c: string)
    requires a != [] && forall i :: 0 <= i < |a| ==> 'a' <= a[i] <= 'z'
    requires b != [] && forall i :: 0 <= i < |b| ==> 'a' <= b[i] <= 'z'
    requires c != [] && forall i :: 0 <= i < |c| ==> 'a' <= c[i] <= 'z'
    ensures Classify(a + "_" + b + "_" + c) == Initial(a) + (Initial(b) + Initial(c))
  {
    ClassifyThreeFields(a, b, c);
    CapitalizeWord(a);
    CapitalizeWord(b);
    CapitalizeWord(c);
  }

  // The prefix in front of a joined name; steps of the two lemmas above.
  lemma PrefixJoin(x: string, y: string)
    ensures Namespace + ":" + (x + y) == "ss:" + x + y
  {
  }

  lemma PrefixJoin3(x: string, y: string, z: string)
    ensures Namespace + ":" + (x + (y + z)) == "ss:" + x + y + z
  {
  }

  /** The key of a Data element's type. */
  lemma TypeAttrName()
    ensures AttrName("type") == "ss:Type"
  {
    WordAttrName("type", "ss:Type");
  }

  // ------------------------------------------------------------ attributes

  /** What the writer is handed: an object's ordered attribute keys and its
      value for each key. */
  datatype Describable = Describable(keys: seq<string>, values: map<string, Value>)

  predicate HasAllKeys(d: Describable)
  {
    forall i :: 0 <= i < |d.keys| ==> d.keys[i] in d.values
  }

  /** The text the last non-omitted key named `name` gives — what a Ruby
      hash built key by key holds under that name. */
  function Winner(keys: seq<string>, values: map<string, Value>, name: string): Option<string>
    requires forall i :: 0 <= i < |keys| ==> keys[i] in values
  {
    if keys == [] then None
    else
      var k := keys[|keys| - 1];
      if AttrName(k) == name && AttrText(values[k]).Some? then AttrText(values[k])
      else Winner(keys[..|keys| - 1], values, name)
  }

  /** The attributes of the first `keys`, in key order, into a sorted list. */
  function Entries(keys: seq<string>, values: map<string, Value>): (r: Attrs)
    requires forall i :: 0 <= i < |keys| ==> keys[i] in values
    ensures Sorted(r)
    ensures forall name :: Lookup(r, name) == Winner(keys, values, name)
  {
    if keys == [] then []
    else
      var k := keys[|keys| - 1];
      var prior := Entries(keys[..|keys| - 1], values);
      match AttrText(values[k])
      case None => prior
      case Some(t) => Put(prior, AttrName(k), t)
  }

  /** Writer.attributes: one `ss:` attribute per key whose value is not
      omitted; a key the object has no value for is InvalidAttributeKey. */
  function Attributes(d: Describable): (r: Result<Attrs>)
    ensures r.Ok? <==> HasAllKeys(d)
    ensures r.Err? ==> r.error.InvalidAttributeKey? && r.error.key in d.keys && r.error.key !in d.values
    ensures r.Ok? ==> Sorted(r.value)
    ensures r.Ok? ==> forall name :: Lookup(r.value, name) == Winner(d.keys, d.values, name)
  {
    match MissingKey(d.keys, d.values)
    case None => Ok(Entries(d.keys, d.values))
    case Some(k) => Err(InvalidAttributeKey(k))
  }

  /** A describable with a single key whose value is written carries
      exactly one attribute: that key's name and text. */
  lemma SingleKeyAttributes(k: string, v: Value)
    requires AttrText(v).Some?
    ensures Attributes(Describable([k], map[k := v])) == Ok([(AttrName(k), AttrText(v).value)])
  {
    var keys, values := [k], map[k := v];
    assert MissingKey(keys, values) == None;
    assert keys[..0] == [];
    assert Entries(keys, values) == Put([], AttrName(k), AttrText(v).value);
  }

  /** The first key the object has no value for. */
  function MissingKey(keys: seq<string>, values: map<string, Value>): (r: Option<string>)
    ensures r.None? <==> forall i :: 0 <= i < |keys| ==> keys[i] in values
    ensures r.Some? ==> r.value in keys && r.value !in values
  {
    if keys == [] then None
    else if keys[0] !in values then Some(keys[0])
    else
      var r := MissingKey(keys[1..], values);
      assert forall i :: 1 <= i < |keys| ==> keys[i] == keys[1..][i - 1];
      r
  }

  /** A key whose value is false, nil or "" contributes nothing: when every
      key under a name is omitted, that name is absent. */
  lemma {:induction false} OmittedNeverEmitted(keys: seq<string>, values: map<string, Value>, name: string)
    requires forall i :: 0 <= i < |keys| ==> keys[i] in values
    requires forall i :: 0 <= i < |keys| && AttrName(keys[i]) == name ==> AttrText(values[keys[i]]).None?
    ensures Winner(keys, values, name).None?
  {
    if keys != [] {
      OmittedNeverEmitted(keys[..|keys| - 1], values, name);
    }
  }

  /** A present key's text appears under its name unless a later key with
      the same name overrides it. */
  lemma {:induction false} KeyEmitted(keys: seq<string>, values: map<string, Value>, i: nat)
    requires forall j :: 0 <= j < |keys| ==> keys[j] in values
    requires i < |keys| && AttrText(values[keys[i]]).Some?
    requires forall j :: i < j < |keys| && AttrName(keys[j]) == AttrName(keys[i]) ==> AttrText(values[keys[j]]).None?
    ensures Winner(keys, values, AttrName(keys[i])) == AttrText(values[keys[i]])
  {
    if i < |keys| - 1 {
      KeyEmitted(keys[..|keys| - 1], values, i);
    }
  }

  predicate NamesDistinct(keys: seq<string>)
  {
    forall i, j :: 0 <= i < j < |keys| ==> AttrName(keys[i]) != AttrName(keys[j])
  }

  /** With distinct names the key order does not matter: any two orders of
      the same keys give the same attribute list. */
  lemma KeyOrderIrrelevant(d1: Describable, d2: Describable)
    requires HasAllKeys(d1) && HasAllKeys(d2) && d1.values == d2.values
    requires NamesDistinct(d1.keys) && NamesDistinct(d2.keys)
    requires forall k :: k in d1.keys <==> k in d2.keys
    ensures Attributes(d1) == Attributes(d2)
  {
    forall name
      ensures Lookup(Attributes(d1).value, name) == Lookup(Attributes(d2).value, name)
    {
      SameWinner(d1.keys, d2.keys, d1.values, name);
    }
    SortedUnique(Attributes(d1).value, Attributes(d2).value);
  }

  lemma SameWinner(keys1: seq<string>, keys2: seq<string>, values: map<string, Value>, name: string)
    requires forall i :: 0 <= i < |keys1| ==> keys1[i] in values
    requires forall i :: 0 <= i < |keys2| ==> keys2[i] in values
    requires NamesDistinct(keys1) && NamesDistinct(keys2)
    requires forall k :: k in keys1 <==> k in keys2
    ensures Winner(keys1, values, name) == Winner(keys2, values, name)
  {
    DistinctWinner(keys1, values, name);
    DistinctWinner(keys2, values, name);
    if i :| 0 <= i < |keys1| && AttrName(keys1[i]) == name {
      assert keys1[i] in keys2;
      var j :| 0 <= j < |keys2| && keys2[j] == keys1[i];
      assert AttrName(keys2[j]) == name;
    } else {
      forall j | 0 <= j < |keys2|
        ensures AttrName(keys2[j]) != name
      {
        assert keys2[j] in keys1;
        var k :| 0 <= k < |keys1| && keys1[k] == keys2[j];
      }
    }
  }

  lemma DistinctWinner(keys: seq<string>, values: map<string, Value>, name: string)
    requires forall i :: 0 <= i < |keys| ==> keys[i] in values
    requires NamesDistinct(keys)
    ensures forall i :: 0 <= i < |keys| && AttrName(keys[i]) == name ==> Winner(keys, values, name) == AttrText(values[keys[i]])
    ensures (forall i :: 0 <= i < |keys| ==> AttrName(keys[i]) != name) ==> Winner(keys, values, name).None?
  {
    forall i | 0 <= i < |keys| && AttrName(keys[i]) == name
      ensures Winner(keys, values, name) == AttrText(values[keys[i]])
    {
      WinnerAt(keys, values, name, i);
    }
    if forall i :: 0 <= i < |keys| ==> AttrName(keys[i]) != name {
      OmittedNeverEmitted(keys, values, name);
    }
  }

  /** With distinct names every key's text is found under its own name. */
  lemma DistinctAttributes(d: Describable, i: nat)
    requires HasAllKeys(d) && NamesDistinct(d.keys) && i < |d.keys|
    ensures Attributes(d).Ok?
    ensures Lookup(Attributes(d).value, AttrName(d.keys[i])) == AttrText(d.values[d.keys[i]])
  {
    WinnerAt(d.keys, d.values, AttrName(d.keys[i]), i);
  }

  /** Four keys whose names are four different names: each key's text is
      found under its name. */
  lemma FourAttributes(d: Describable, n0: string, n1: string, n2: string, n3: string)
    requires HasAllKeys(d) && |d.keys| == 4
    requires AttrName(d.keys[0]) == n0 && AttrName(d.keys[1]) == n1
    requires AttrName(d.keys[2]) == n2 && AttrName(d.keys[3]) == n3
    requires n0 != n1 && n0 != n2 && n0 != n3 && n1 != n2 && n1 != n3 && n2 != n3
    ensures Attributes(d).Ok?
    ensures Lookup(Attributes(d).value, n0) == AttrText(d.values[d.keys[0]])
    ensures Lookup(Attributes(d).value, n1) == AttrText(d.values[d.keys[1]])
    ensures Lookup(Attributes(d).value, n2) == AttrText(d.values[d.keys[2]])
    ensures Lookup(Attributes(d).value, n3) == AttrText(d.values[d.keys[3]])
  {
    FourNamesDistinct(d.keys, n0, n1, n2, n3);
    DistinctAttributes(d, 0);
    DistinctAttributes(d, 1);
    DistinctAttributes(d, 2);
    DistinctAttributes(d, 3);
  }

  // The four keys' names are pairwise different; a step of FourAttributes.
  lemma FourNamesDistinct(keys: seq<string>, n0: string, n1: string, n2: string, n3: string)
    requires |keys| == 4
    requires AttrName(keys[0]) == n0 && AttrName(keys[1]) == n1
    requires AttrName(keys[2]) == n2 && AttrName(keys[3]) == n3
    requires n0 != n1 && n0 != n2 && n0 != n3 && n1 != n2 && n1 != n3 && n2 != n3
    ensures NamesDistinct(keys)
  {
    var names := [n0, n1, n2, n3];
    forall k | 0 <= k < 4
      ensures AttrName(keys[k]) == names[k]
    {
      if k == 0 {} else if k == 1 {} else if k == 2 {} else {}
    }
    forall i, j | 0 <= i < j < 4
      ensures AttrName(keys[i]) != AttrName(keys[j])
    {
      FourDistinct(names, i, j);
    }
  }

  // Four pairwise different names, read by index; a step of FourAttributes.
  lemma FourDistinct(names: seq<string>, i: nat, j: nat)
    requires |names| == 4 && i < j < 4
    requires names[0] != names[1] && names[0] != names[2] && names[0] != names[3]
    requires names[1] != names[2] && names[1] != names[3] && names[2] != names[3]
    ensures names[i] != names[j]
  {
  }

  lemma WinnerAt(keys: seq<string>, values: map<string, Value>, name: string, i: nat)
    requires forall i :: 0 <= i < |keys| ==> keys[i] in values
    requires NamesDistinct(keys)
    requires i < |keys| && AttrName(keys[i]) == name
    ensures Winner(keys, values, name) == AttrText(values[keys[i]])
  {
    if AttrText(values[keys[i]]).Some? {
      KeyEmitted(keys, values, i);
    } else {
      OmittedNeverEmitted(keys, values, name);
    }
  }
}
