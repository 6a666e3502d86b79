/** The attributes of one markup node: a name → text association kept
    strictly sorted by name. Writing a name that is already present
    replaces its text (last write wins); rendering walks the list, so
    attributes come out in ascending name order whatever the order in
    which they were set. */
module AttrLists {
  import opened Values

  type Attrs = seq<(string, string)>

  /** Ruby's String#<=> on names: lexicographic by character code, a
      proper prefix first. */
  predicate Below(a: string, b: string)
    decreases |a|
  {
    if a == [] then b != []
    else b != [] && (if a[0] != b[0] then a[0] < b[0] else Below(a[1..], b[1..]))
  }

  lemma {:induction false} BelowIrreflexive(a: string)
    ensures !Below(a, a)
    decreases |a|
  {
    if a != [] { BelowIrreflexive(a[1..]); }
  }

  lemma {:induction false} BelowTransitive(a: string, b: string, c: string)
    requires Below(a, b) && Below(b, c)
    ensures Below(a, c)
    decreases |a|
  {
    if a != [] && a[0] == b[0] && b[0] == c[0] {
      BelowTransitive(a[1..], b[1..], c[1..]);
    }
  }

  lemma {:induction false} BelowTotal(a: string, b: string)
    requires a != b
    ensures Below(a, b) != Below(b, a)
    decreases |a|
  {
    if a != [] && b != [] && a[0] == b[0] {
      assert a == [a[0]] + a[1..] && b == [b[0]] + b[1..];
      BelowTotal(a[1..], b[1..]);
    }
  }

  /** Strictly ascending names; in particular no name occurs twice. */
  ghost predicate Sorted(a: Attrs)
  {
    forall i, j :: 0 <= i < j < |a| ==> Below(a[i].0, a[j].0)
  }

  /** Every name in `a` sorts after `x`. */
  ghost predicate Above(x: string, a: Attrs)
  {
    forall i :: 0 <= i < |a| ==> Below(x, a[i].0)
  }

  function Lookup(a: Attrs, name: string): (r: Option<string>)
    ensures r.Some? <==> exists i :: 0 <= i < |a| && a[i].0 == name
  {
    if a == [] then None
    else if a[0].0 == name then Some(a[0].1)
    else
      assert forall i :: 1 <= i < |a| ==> a[i] == a[1..][i - 1];
      Lookup(a[1..], name)
  }

  /** Sets `name` to `text`, keeping the list sorted. */
  function Put(a: Attrs, name: string, text: string): (r: Attrs)
    requires Sorted(a)
    ensures Sorted(r)
    ensures forall x :: Lookup(r, x) == if x == name then Some(text) else Lookup(a, x)
    ensures forall x :: Above(x, a) && Below(x, name) ==> Above(x, r)
  {
    if a == [] then [(name, text)]
    else if a[0].0 == name then [(name, text)] + a[1..]
    else if Below(name, a[0].0) then
      assert forall i :: 0 <= i < |a| ==> Below(name, a[i].0) by {
        forall i | 0 < i < |a| { BelowTransitive(name, a[0].0, a[i].0); }
      }
      [(name, text)] + a
    else
      BelowTotal(name, a[0].0);
      var rest := Put(a[1..], name, text);
      assert Above(a[0].0, a[1..]);
      [a[0]] + rest
  }

  /** A sorted list is determined by what it maps each name to: two lists
      that agree on every lookup are equal. Hence the rendered order never
      depends on the order in which attributes were set. */
  lemma {:induction false} SortedUnique(a: Attrs, b: Attrs)
    requires Sorted(a) && Sorted(b)
    requires forall x :: Lookup(a, x) == Lookup(b, x)
    ensures a == b
    decreases |a| + |b|
  {
    if a == [] || b == [] {
      if a != [] { LookupHead(a); }
      if b != [] { LookupHead(b); }
    } else {
      var x, y := a[0].0, b[0].0;
      if x != y {
        BelowTotal(x, y);
        LookupHead(a);
        LookupHead(b);
        if Below(x, y) {
          BelowAsymmetric(x, y);
          NotFirstSortsAfter(b, x);
        } else {
          BelowAsymmetric(y, x);
          NotFirstSortsAfter(a, y);
        }
      }
      LookupHead(a);
      LookupHead(b);
      forall z
        ensures Lookup(a[1..], z) == Lookup(b[1..], z)
      {
        if z == x {
          AboveMissing(x, a[1..]);
          AboveMissing(x, b[1..]);
        } else {
          assert Lookup(a, z) == Lookup(a[1..], z) && Lookup(b, z) == Lookup(b[1..], z);
        }
      }
      SortedUnique(a[1..], b[1..]);
      assert a == [a[0]] + a[1..] && b == [b[0]] + b[1..];
    }
  }

  lemma BelowAsymmetric(x: string, y: string)
    requires Below(x, y)
    ensures !Below(y, x)
  {
    if Below(y, x) {
      BelowTransitive(x, y, x);
      BelowIrreflexive(x);
    }
  }

  lemma LookupHead(a: Attrs)
    requires a != []
    ensures Lookup(a, a[0].0) == Some(a[0].1)
  {
  }

  /** A present name other than the first sorts after the first. */
  lemma NotFirstSortsAfter(a: Attrs, x: string)
    requires Sorted(a) && a != []
    requires Lookup(a, x).Some? && a[0].0 != x
    ensures Below(a[0].0, x)
  {
    var j :| 0 <= j < |a| && a[j].0 == x;
  }

  lemma AboveMissing(x: string, a: Attrs)
    requires Above(x, a)
    ensures Lookup(a, x).None?
  {
    if Lookup(a, x).Some? {
      var i :| 0 <= i < |a| && a[i].0 == x;
      BelowIrreflexive(x);
    }
  }

  /** Setting two different names commutes. */
  lemma PutCommutes(a: Attrs, n1: string, t1: string, n2: string, t2: string)
    requires Sorted(a) && n1 != n2
    ensures Put(Put(a, n1, t1), n2, t2) == Put(Put(a, n2, t2), n1, t1)
  {
    SortedUnique(Put(Put(a, n1, t1), n2, t2), Put(Put(a, n2, t2), n1, t1));
  }

  /** Setting the same name twice keeps only the later text. */
  lemma PutOverrides(a: Attrs, n: string, t1: string, t2: string)
    requires Sorted(a)
    ensures Put(Put(a, n, t1), n, t2) == Put(a, n, t2)
  {
    SortedUnique(Put(Put(a, n, t1), n, t2), Put(a, n, t2));
  }
}
