/** Ruby values as the writer and the value objects see them, the error
    conditions they raise, and the `to_s` text of a value. */
module Values {

  datatype Option<+T> = None | Some(value: T)

  /** The conditions the source raises instead of returning a value. */
  datatype Error =
    | InvalidEnumValue          // neither a known key nor a known canonical value
    | InvalidAttributeKey(key: string)  // a describable names a key it has no value for
    | ScopeUnderflow            // a close or a setter with no open node
    | ArgumentError             // a value object rejects a field value

  datatype Result<+T> = Ok(value: T) | Err(error: Error)

  datatype Outcome = Pass | Fail(error: Error)

  /** A Ruby value: nil, a boolean, an Integer, a Float held exactly as
      units / 10^scale, a String, or a Symbol. */
  datatype Value =
    | Nil
    | Bool(b: bool)
    | Int(i: int)
    | Dec(units: int, scale: nat)
    | Str(s: string)
    | Sym(name: string)

  predicate IsNumeric(v: Value) { v.Int? || v.Dec? }

  predicate IsNegative(v: Value) { (v.Int? && v.i < 0) || (v.Dec? && v.units < 0) }

  function DigitChar(d: nat): (c: char)
    requires d < 10
    ensures '0' <= c <= '9' && (c as int) - ('0' as int) == d
  {
    ('0' as int + d) as char
  }

  predicate IsDigit(c: char) { '0' <= c <= '9' }

  /** Decimal digits of a natural number, most significant first. */
  function NatText(n: nat): (r: string)
    ensures |r| >= 1 && forall i :: 0 <= i < |r| ==> IsDigit(r[i])
    ensures n > 0 ==> r[0] != '0'
  {
    if n < 10 then [DigitChar(n)] else NatText(n / 10) + [DigitChar(n % 10)]
  }

  /** Reads back a run of decimal digits. */
  function ParseNat(s: string): nat
    requires forall i :: 0 <= i < |s| ==> IsDigit(s[i])
  {
    if s == [] then 0
    else ParseNat(s[..|s| - 1]) * 10 + DigitValue(s[|s| - 1])
  }

  function DigitValue(c: char): nat
    requires IsDigit(c)
  {
    (c as int) - ('0' as int)
  }

  /** The canonical text of an Integer: an optional '-', then one or more
      digits with no leading zero, and "0" for zero alone. */
  predicate IsIntText(r: string)
  {
    var ds := if |r| > 0 && r[0] == '-' then r[1..] else r;
    && ds != []
    && (forall k :: 0 <= k < |ds| ==> IsDigit(ds[k]))
    && (ds[0] == '0' ==> ds == "0")
    && (|r| > 0 && r[0] == '-' ==> ds != "0")
  }

  /** Integer#to_s */
  function IntText(i: int): (r: string)
    ensures IsIntText(r) && (r[0] == '-' <==> i < 0)
  {
    if i < 0 then "-" + NatText(-i) else NatText(i)
  }

  /** Reads back the text of an integer. */
  function ParseInt(s: string): int
  {
    if |s| > 0 && s[0] == '-' && forall i :: 1 <= i < |s| ==> IsDigit(s[i]) then -(ParseNat(s[1..]) as int)
    else if forall i :: 0 <= i < |s| ==> IsDigit(s[i]) then ParseNat(s)
    else 0
  }

  lemma {:induction false} ParseNatText(n: nat)
    ensures ParseNat(NatText(n)) == n
  {
    if n >= 10 {
      var t := NatText(n);
      assert t[..|t| - 1] == NatText(n / 10);
      ParseNatText(n / 10);
    }
  }

  /** The text of an integer reads back as the same integer, so rendering
      an Integer attribute loses nothing. */
  lemma IntTextRoundTrip(i: int)
    ensures ParseInt(IntText(i)) == i
  {
    if i < 0 {
      var d := NatText(-i);
      var t := "-" + d;
      assert IntText(i) == t && t[0] == '-' && t[1..] == d;
      assert forall k :: 1 <= k < |t| ==> t[k] == d[k - 1];
      ParseNatText(-i);
    } else {
      var d := NatText(i);
      assert IntText(i) == d && d[0] != '-';
      ParseNatText(i);
    }
  }

  function Pow10(k: nat): (r: nat)
    ensures r >= 1
  {
    if k == 0 then 1 else 10 * Pow10(k - 1)
  }

  /** The same decimal without trailing fraction zeros: units / 10^scale
      is unchanged, and the units end in a non-zero digit unless no
      fraction digit is left. */
  function Trim(units: int, scale: nat): (r: (int, nat))
    ensures r.1 <= scale && units == r.0 * Pow10(scale - r.1)
    ensures r.1 == 0 || r.0 % 10 != 0
    decreases scale
  {
    if scale > 0 && units % 10 == 0 then
      var t := Trim(units / 10, scale - 1);
      assert Pow10(scale - t.1) == 10 * Pow10(scale - 1 - t.1);
      assert units == 10 * (units / 10);
      t
    else (units, scale)
  }

  /** Float#to_s for a value held exactly as units / 10^scale: the
      shortest decimal form, with at least one fraction digit. */
  function DecText(units: int, scale: nat): string
  {
    var t := Trim(units, scale);
    var mag: nat := if t.0 < 0 then -t.0 else t.0;
    Signed(t.0 < 0, DecMagnitudeText(mag, t.1))
  }

  /** A magnitude's text with a leading '-' when it is negative. */
  function Signed(neg: bool, body: string): string
  {
    if neg then "-" + body else body
  }

  /** Trailing zeros do not change a Float's text: 1.20 is written as 1.2. */
  lemma DecTrailingZero(units: int, scale: nat)
    ensures DecText(units * 10, scale + 1) == DecText(units, scale)
  {
    assert (units * 10) % 10 == 0 && (units * 10) / 10 == units;
  }

  /** `mag / 10^scale` in decimal: the digits of `mag`, padded with
      zeros to more than `scale` places, with the point `scale` places from
      the right (one "0" after the point when `scale` is 0). */
  function DecMagnitudeText(mag: nat, scale: nat): string
  {
    var d := Padded(mag, scale + 1);
    d[..|d| - scale] + "." + (if scale == 0 then "0" else d[|d| - scale..])
  }

  /** The digits of `n`, zero-padded on the left to at least `k` places. */
  function Padded(n: nat, k: nat): (r: string)
    ensures |r| >= k && |r| >= 1
  {
    Zeros(k - |NatText(n)|) + NatText(n)
  }

  function Zeros(k: int): (r: string)
    ensures |r| == if k < 0 then 0 else k
    decreases k
  {
    if k <= 0 then "" else "0" + Zeros(k - 1)
  }

  predicate AllDigits(s: string)
  {
    forall i :: 0 <= i < |s| ==> IsDigit(s[i])
  }

  /** The position of the first '.' in `s`. */
  function DotAt(s: string): (r: Option<nat>)
    ensures r.Some? ==> r.value < |s| && s[r.value] == '.'
  {
    if s == [] then None
    else if s[0] == '.' then Some(0)
    else match DotAt(s[1..])
      case None => None
      case Some(p) => Some(p + 1)
  }

  /** Reads back a Float's text: an optional '-', one or more digits, a
      '.', and one or more digits, as its units and its number of fraction
      digits. */
  function ParseDec(s: string): Option<(int, nat)>
  {
    if |s| > 0 && s[0] == '-' then
      match ParseUnsigned(s[1..])
      case None => None
      case Some(p) => Some((-(p.0 as int), p.1))
    else
      match ParseUnsigned(s)
      case None => None
      case Some(p) => Some((p.0 as int, p.1))
  }

  /** Reads digits, a '.', and digits, as units and fraction digits. */
  function ParseUnsigned(body: string): Option<(nat, nat)>
  {
    match DotAt(body)
    case None => None
    case Some(p) =>
      var w, f := body[..p], body[p + 1..];
      if w != [] && f != [] && AllDigits(w) && AllDigits(f) then Some((PointValue(w, f), |f|))
      else None
  }

  /** The digits either side of the point, read as units of 10^-|f|. */
  function PointValue(w: string, f: string): nat
    requires AllDigits(w) && AllDigits(f)
  {
    ParseNat(w) * Pow10(|f|) + ParseNat(f)
  }

  /** A Float's text reads back as the same number, with at least one
      fraction digit and no trailing zero in the fraction beyond a lone
      "0"; printing what was read back gives the same text again. */
  lemma {:induction false} DecTextRoundTrip(units: int, scale: nat)
    ensures ParseDec(DecText(units, scale)).Some?
    ensures var p := ParseDec(DecText(units, scale)).value;
      && p.1 >= 1
      && (p.1 == 1 || p.0 % 10 != 0)
      && p.0 * Pow10(scale) == units * Pow10(p.1)
      && DecText(p.0, p.1) == DecText(units, scale)
  {
    var t := Trim(units, scale);
    DecTextReads(units, scale);
    TrimText(units, scale);
    if t.1 == 0 {
      DecTrailingZero(t.0, 0);
      SameValueUntrimmed(t.0, units, scale);
    } else {
      SameValueTrimmed(t.0, t.1, units, scale);
    }
  }

  /** What a Float's text reads back as: the trimmed decimal, or ten
      times it with one fraction digit when no fraction digit is left. */
  lemma {:induction false} DecTextReads(units: int, scale: nat)
    ensures var t := Trim(units, scale);
      ParseDec(DecText(units, scale)) == Some(if t.1 == 0 then (t.0 * 10, 1) else t)
  {
    var t := Trim(units, scale);
    var mag: nat := if t.0 < 0 then -t.0 else t.0;
    assert DecText(units, scale) == Signed(t.0 < 0, DecMagnitudeText(mag, t.1));
    MagnitudeReads(mag, t.1, t.0 < 0);
    var m: int := if t.1 == 0 then mag * 10 else mag;
    assert (if t.0 < 0 then -m else m) == (if t.1 == 0 then t.0 * 10 else t.0);
  }

  /** Trimming does not change the text. */
  lemma {:induction false} TrimText(units: int, scale: nat)
    ensures DecText(Trim(units, scale).0, Trim(units, scale).1) == DecText(units, scale)
  {
    var t := Trim(units, scale);
    assert Trim(t.0, t.1) == t;
  }

  // The value equation when no fraction digit was left; a step of DecTextRoundTrip.
  lemma SameValueUntrimmed(u: int, units: int, scale: nat)
    requires units == u * Pow10(scale)
    ensures (u * 10) * Pow10(scale) == units * Pow10(1)
  {
    assert Pow10(1) == 10;
  }

  // The value equation when some fraction digits are left; a step of DecTextRoundTrip.
  lemma SameValueTrimmed(u: int, k: nat, units: int, scale: nat)
    requires k <= scale && units == u * Pow10(scale - k)
    ensures u * Pow10(scale) == units * Pow10(k)
  {
    Pow10Add(scale - k, k);
    var a, b := Pow10(scale - k), Pow10(k);
    assert u * (a * b) == (u * a) * b;
  }

  /** The text of a magnitude, with or without a '-', reads back as that
      magnitude with its fraction digits (one digit, "0", when it has none). */
  lemma {:induction false} MagnitudeReads(mag: nat, k: nat, neg: bool)
    ensures var m: int := if k == 0 then mag * 10 else mag;
      ParseDec(Signed(neg, DecMagnitudeText(mag, k)))
        == Some((if neg then -m else m, if k == 0 then 1 else k))
  {
    var t := DecMagnitudeText(mag, k);
    if k == 0 {
      WholeReads(mag);
      ReadSign(neg, t);
    } else {
      FractionReads(mag, k);
      ReadSign(neg, t);
    }
  }

  /** A magnitude with no fraction digit is written "<digits>.0". */
  lemma {:induction false} WholeReads(mag: nat)
    ensures var t := DecMagnitudeText(mag, 0);
      t != [] && IsDigit(t[0]) && ParseUnsigned(t) == Some((mag * 10, 1))
  {
    var d := Padded(mag, 1);
    PaddedDigits(mag, 1);
    assert d[..|d|] == d;
    assert DecMagnitudeText(mag, 0) == d + "." + "0";
    assert ParseNat("0") == 0 && AllDigits("0") && Pow10(1) == 10;
    ParseUnsignedParts(d, "0");
    assert (d + "." + "0")[0] == d[0];
  }

  /** A magnitude with k > 0 fraction digits reads back as itself. */
  lemma {:induction false} FractionReads(mag: nat, k: nat)
    requires k > 0
    ensures var t := DecMagnitudeText(mag, k);
      t != [] && IsDigit(t[0]) && ParseUnsigned(t) == Some((mag, k))
  {
    var d := Padded(mag, k + 1);
    PaddedDigits(mag, k + 1);
    var w, f := d[..|d| - k], d[|d| - k..];
    SplitReads(d, k);
    assert DecMagnitudeText(mag, k) == w + "." + f;
    ParseUnsignedParts(w, f);
    assert (w + "." + f)[0] == w[0];
  }

  /** Digits split `k` places from the right read as whole units and
      `k` fraction digits of the same number. */
  lemma SplitReads(d: string, k: nat)
    requires AllDigits(d) && 0 < k < |d|
    ensures var w, f := d[..|d| - k], d[|d| - k..];
      AllDigits(w) && AllDigits(f) && PointValue(w, f) == ParseNat(d)
  {
    var w, f := d[..|d| - k], d[|d| - k..];
    assert d == w + f;
    assert forall i :: 0 <= i < |w| ==> w[i] == d[i];
    assert forall i :: 0 <= i < |f| ==> f[i] == d[|d| - k + i];
    ParseNatAppend(w, f);
  }

  lemma ParseUnsignedParts(w: string, f: string)
    requires w != [] && f != [] && AllDigits(w) && AllDigits(f)
    ensures ParseUnsigned(w + "." + f) == Some((PointValue(w, f), |f|))
  {
    var body := w + "." + f;
    DotAfterDigits(w, f);
    assert body[..|w|] == w && body[|w| + 1..] == f;
  }

  /** A '-' in front negates what the rest reads as. */
  lemma ReadSign(neg: bool, body: string)
    requires body != [] && IsDigit(body[0]) && ParseUnsigned(body).Some?
    ensures var p := ParseUnsigned(body).value;
      ParseDec(Signed(neg, body)) == Some((if neg then -(p.0 as int) else p.0, p.1))
  {
    if neg {
      var s := "-" + body;
      assert s[0] == '-' && s[1..] == body;
    }
  }

  /** Padding with zeros keeps the digits and what they read as. */
  lemma {:induction false} PaddedDigits(n: nat, k: nat)
    ensures AllDigits(Padded(n, k)) && ParseNat(Padded(n, k)) == n
  {
    var d := NatText(n);
    var z := Zeros(k - |d|);
    ZerosDigits(k - |d|);
    ParseNatText(n);
    DigitsAppend(z, d);
    LeadingZeros(z, d);
    assert Padded(n, k) == z + d;
  }

  /** Digits reading as zero in front change nothing. */
  lemma LeadingZeros(z: string, d: string)
    requires AllDigits(z) && AllDigits(d) && ParseNat(z) == 0
    ensures ParseNat(z + d) == ParseNat(d)
  {
    ParseNatAppend(z, d);
  }

  lemma DigitsAppend(a: string, b: string)
    requires AllDigits(a) && AllDigits(b)
    ensures AllDigits(a + b)
  {
    forall i | 0 <= i < |a + b|
      ensures IsDigit((a + b)[i])
    {
      if i >= |a| {
        assert (a + b)[i] == b[i - |a|];
      }
    }
  }

  /** A run of digits followed by '.': the first dot is right after them. */
  lemma {:induction false} DotAfterDigits(w: string, f: string)
    requires AllDigits(w)
    ensures DotAt(w + "." + f) == Some(|w|)
  {
    if w != [] {
      assert (w + "." + f)[1..] == w[1..] + "." + f;
      DotAfterDigits(w[1..], f);
    }
  }

  lemma {:induction false} ZerosDigits(k: int)
    ensures AllDigits(Zeros(k)) && ParseNat(Zeros(k)) == 0
    decreases k
  {
    if k > 0 {
      ZerosDigits(k - 1);
      ParseNatAppend("0", Zeros(k - 1));
    }
  }

  /** Reading digits in two parts: the first part is shifted by the
      second's length. */
  lemma {:induction false} ParseNatAppend(a: string, b: string)
    requires AllDigits(a) && AllDigits(b)
    ensures ParseNat(a + b) == ParseNat(a) * Pow10(|b|) + ParseNat(b)
  {
    if b == [] {
      assert a + b == a;
    } else {
      var c, x := b[..|b| - 1], b[|b| - 1];
      assert (a + b)[..|a + b| - 1] == a + c && (a + b)[|a + b| - 1] == x;
      assert ParseNat(b) == ParseNat(c) * 10 + DigitValue(x);
      ParseNatAppend(a, c);
      ShiftDigit(ParseNat(a), Pow10(|c|), ParseNat(c), DigitValue(x));
    }
  }

  // Appending one digit multiplies the rest by ten; a step of ParseNatAppend.
  lemma ShiftDigit(n: int, p: int, c: int, x: int)
    ensures (n * p + c) * 10 + x == n * (10 * p) + (c * 10 + x)
  {
  }

  lemma {:induction false} Pow10Add(i: nat, j: nat)
    ensures Pow10(i) * Pow10(j) == Pow10(i + j)
  {
    if i > 0 {
      Pow10Add(i - 1, j);
      TenTimes(Pow10(i - 1), Pow10(j));
      assert i + j - 1 == (i - 1) + j;
    }
  }

  // Regrouping a factor of ten; a step of Pow10Add.
  lemma TenTimes(p: int, q: int)
    ensures (10 * p) * q == 10 * (p * q)
  {
  }

  /** Ruby's `to_s` on a value. */
  function Display(v: Value): (r: string)
    ensures v == Nil ==> r == ""
    ensures v.Bool? ==> r == if v.b then "true" else "false"
    ensures v.Int? ==> IsIntText(r) && (r[0] == '-' <==> v.i < 0) && ParseInt(r) == v.i
    ensures v.Dec? ==> ParseDec(r).Some? && ParseDec(r).value.1 >= 1
    ensures v.Dec? ==> ParseDec(r).value.0 * Pow10(v.scale) == v.units * Pow10(ParseDec(r).value.1)
    ensures v.Str? ==> r == v.s
    ensures v.Sym? ==> r == v.name
  {
    match v
    case Nil => ""
    case Bool(b) => if b then "true" else "false"
    case Int(i) => IntTextRoundTrip(i); IntText(i)
    case Dec(u, k) => DecTextRoundTrip(u, k); DecText(u, k)
    case Str(s) => s
    case Sym(n) => n
  }
}
