/** Escaping of Data text. Every line break — "\r\n", "\n\r", a lone "\r"
    or a lone "\n" — becomes the one marker `LB`; each of & < > ' " / becomes
    its entity. The marker itself is emitted as markup, so its `&` is never
    escaped again. Spaces and leading breaks are kept. */
module Escaping {

  /** Writer::LB, the line-break marker. */
  const LB: string := "&#13;&#10;"

  predicate IsBreak(c: char) { c == '\r' || c == '\n' }

  /** A two-character break: "\r\n" or "\n\r". */
  predicate IsBreakPair(s: string)
  {
    |s| >= 2 && ((s[0] == '\r' && s[1] == '\n') || (s[0] == '\n' && s[1] == '\r'))
  }

  /** Characters that never appear raw in escaped text. */
  predicate IsUnsafe(c: char)
  {
    c == '<' || c == '>' || c == '\'' || c == '"' || c == '/' || IsBreak(c)
  }

  /** The entity of a reserved character; any other character as it is. */
  function EscapeChar(c: char): (r: string)
    ensures |r| >= 1
    ensures IsBreak(c) ==> r == [c]
    ensures !IsBreak(c) ==> forall i :: 0 <= i < |r| ==> !IsUnsafe(r[i])
  {
    match c
    case '&' => "&amp;"
    case '<' => "&lt;"
    case '>' => "&gt;"
    case '\'' => "&#x27;"
    case '"' => "&quot;"
    case '/' => "&#x2F;"
    case _ => [c]
  }

  /** How many characters the first token of `s` spans: two for a
      two-character break, else one. */
  function TokenWidth(s: string): (w: nat)
    requires s != []
    ensures 1 <= w <= |s|
  {
    if IsBreakPair(s) then 2 else 1
  }

  /** The escaped form of the first token of `s`. */
  function EscapeToken(s: string): (r: string)
    requires s != []
    ensures forall i :: 0 <= i < |r| ==> !IsUnsafe(r[i])
  {
    if IsBreak(s[0]) then LB else EscapeChar(s[0])
  }

  /** Writer#escape: token by token, from the left. Nothing is dropped:
      each token becomes at least as many characters as it spans. */
  function Escape(s: string): (r: string)
    ensures |r| >= |s|
    decreases |s|
  {
    if s == [] then [] else EscapeToken(s) + Escape(s[TokenWidth(s)..])
  }

  /** A character escaping leaves as it is. */
  predicate IsPlain(c: char)
  {
    !IsUnsafe(c) && c != '&'
  }

  /** Text with no reserved character and no line break is written as it
      is. */
  lemma {:induction false} EscapePlain(s: string)
    requires forall i :: 0 <= i < |s| ==> IsPlain(s[i])
    ensures Escape(s) == s
    decreases |s|
  {
    if s != [] {
      EscapePlain(s[1..]);
      assert [s[0]] + s[1..] == s;
    }
  }

  /** Escaped text holds no reserved character and no raw line break. */
  lemma {:induction false} EscapeSafe(s: string)
    ensures forall i :: 0 <= i < |Escape(s)| ==> !IsUnsafe(Escape(s)[i])
    decreases |s|
  {
    if s != [] {
      var t, rest := EscapeToken(s), s[TokenWidth(s)..];
      EscapeSafe(rest);
      forall i | 0 <= i < |Escape(s)|
        ensures !IsUnsafe(Escape(s)[i])
      {
        if i >= |t| {
          assert Escape(s)[i] == Escape(rest)[i - |t|];
        }
      }
    }
  }

  // ------------------------------------------- the same result in two steps

  /** Step one: reserved characters to entities, breaks untouched. */
  function EscapeReserved(s: string): string
  {
    if s == [] then [] else EscapeChar(s[0]) + EscapeReserved(s[1..])
  }

  /** Step two: each break form to the marker. */
  function ReplaceBreaks(s: string): string
  {
    if s == [] then []
    else if IsBreakPair(s) then LB + ReplaceBreaks(s[2..])
    else if IsBreak(s[0]) then LB + ReplaceBreaks(s[1..])
    else [s[0]] + ReplaceBreaks(s[1..])
  }

  lemma {:induction false} ReplaceBreaksPlain(u: string, rest: string)
    requires forall i :: 0 <= i < |u| ==> !IsBreak(u[i])
    ensures ReplaceBreaks(u + rest) == u + ReplaceBreaks(rest)
  {
    if u == [] {
      assert u + rest == rest;
    } else {
      var t := u + rest;
      assert t[0] == u[0] && t[1..] == u[1..] + rest;
      assert !IsBreakPair(t);
      assert ReplaceBreaks(t) == [u[0]] + ReplaceBreaks(u[1..] + rest);
      ReplaceBreaksPlain(u[1..], rest);
      calc {
        ReplaceBreaks(t);
        [u[0]] + (u[1..] + ReplaceBreaks(rest));
        ([u[0]] + u[1..]) + ReplaceBreaks(rest);
        { assert [u[0]] + u[1..] == u; }
        u + ReplaceBreaks(rest);
      }
    }
  }

  lemma {:induction false} EscapeReservedShape(s: string)
    ensures s != [] ==> EscapeReserved(s) != [] && (IsBreak(EscapeReserved(s)[0]) <==> IsBreak(s[0]))
  {
  }

  /** Escaping reserved characters first and replacing breaks afterwards
      gives exactly the one-pass result — the order in which the marker's
      own `&` is left alone. */
  lemma {:induction false} EscapeInTwoSteps(s: string)
    ensures Escape(s) == ReplaceBreaks(EscapeReserved(s))
  {
    if s != [] {
      if IsBreakPair(s) {
        EscapeInTwoSteps(s[2..]);
        assert EscapeReserved(s) == [s[0], s[1]] + EscapeReserved(s[2..]);
        assert ([s[0], s[1]] + EscapeReserved(s[2..]))[2..] == EscapeReserved(s[2..]);
      } else if IsBreak(s[0]) {
        EscapeInTwoSteps(s[1..]);
        EscapeReservedShape(s[1..]);
        assert EscapeReserved(s) == [s[0]] + EscapeReserved(s[1..]);
        assert ([s[0]] + EscapeReserved(s[1..]))[1..] == EscapeReserved(s[1..]);
      } else {
        EscapeInTwoSteps(s[1..]);
        ReplaceBreaksPlain(EscapeChar(s[0]), EscapeReserved(s[1..]));
      }
    }
  }

  // ---------------------------------------- what the escaped text stands for

  /** Every break form written as "\r\n". */
  function NormalizeBreaks(s: string): string
  {
    if s == [] then []
    else if IsBreakPair(s) then "\r\n" + NormalizeBreaks(s[2..])
    else if IsBreak(s[0]) then "\r\n" + NormalizeBreaks(s[1..])
    else [s[0]] + NormalizeBreaks(s[1..])
  }

  predicate StartsWith(t: string, p: string)
  {
    |p| <= |t| && t[..|p|] == p
  }

  /** Reads escaped text back: the marker as "\r\n", each entity as its
      character. */
  function Unescape(t: string): string
    decreases |t|
  {
    if t == [] then []
    else if StartsWith(t, LB) then "\r\n" + Unescape(t[|LB|..])
    else if StartsWith(t, "&amp;") then "&" + Unescape(t[5..])
    else if StartsWith(t, "&lt;") then "<" + Unescape(t[4..])
    else if StartsWith(t, "&gt;") then ">" + Unescape(t[4..])
    else if StartsWith(t, "&#x27;") then "'" + Unescape(t[6..])
    else if StartsWith(t, "&quot;") then "\"" + Unescape(t[6..])
    else if StartsWith(t, "&#x2F;") then "/" + Unescape(t[6..])
    else [t[0]] + Unescape(t[1..])
  }

  lemma UnescapeChar(c: char, rest: string)
    requires !IsBreak(c)
    ensures Unescape(EscapeChar(c) + rest) == [c] + Unescape(rest)
  {
    var e := EscapeChar(c);
    var t := e + rest;
    assert t[..|e|] == e;
    assert t[|e|..] == rest;
    if c != '&' && c != '<' && c != '>' && c != '\'' && c != '"' && c != '/' {
      assert t[0] == c && t[1..] == rest;
      Mismatch(t, LB, 0);
      Mismatch(t, "&amp;", 0);
      Mismatch(t, "&lt;", 0);
      Mismatch(t, "&gt;", 0);
      Mismatch(t, "&#x27;", 0);
      Mismatch(t, "&quot;", 0);
      Mismatch(t, "&#x2F;", 0);
      assert Unescape(t) == [t[0]] + Unescape(t[1..]);
    } else if c == '&' {
      Mismatch(t, LB, 1);
    } else if c == '<' {
      Mismatch(t, LB, 1); Mismatch(t, "&amp;", 1);
    } else if c == '>' {
      Mismatch(t, LB, 1); Mismatch(t, "&amp;", 1); Mismatch(t, "&lt;", 1);
    } else if c == '\'' {
      Mismatch(t, LB, 2); Mismatch(t, "&amp;", 1); Mismatch(t, "&lt;", 1); Mismatch(t, "&gt;", 1);
    } else if c == '"' {
      Mismatch(t, LB, 1); Mismatch(t, "&amp;", 1); Mismatch(t, "&lt;", 1); Mismatch(t, "&gt;", 1);
      Mismatch(t, "&#x27;", 1);
    } else {
      Mismatch(t, LB, 2); Mismatch(t, "&amp;", 1); Mismatch(t, "&lt;", 1); Mismatch(t, "&gt;", 1);
      Mismatch(t, "&#x27;", 4); Mismatch(t, "&quot;", 1);
    }
  }

  lemma Mismatch(t: string, p: string, i: nat)
    requires i < |p| && i < |t| && t[i] != p[i]
    ensures !StartsWith(t, p)
  {
    if |p| <= |t| { assert t[..|p|][i] == t[i]; }
  }

  lemma UnescapeMarker(rest: string)
    ensures Unescape(LB + rest) == "\r\n" + Unescape(rest)
  {
    var t := LB + rest;
    assert t[..|LB|] == LB;
    assert t[|LB|..] == rest;
  }

  /** Unescaping recovers the text, with every break written as "\r\n":
      escaping loses nothing but the choice of break form. */
  lemma {:induction false} UnescapeEscape(s: string)
    ensures Unescape(Escape(s)) == NormalizeBreaks(s)
  {
    if s != [] {
      if IsBreakPair(s) {
        UnescapeEscape(s[2..]);
        UnescapeMarker(Escape(s[2..]));
      } else if IsBreak(s[0]) {
        UnescapeEscape(s[1..]);
        UnescapeMarker(Escape(s[1..]));
      } else {
        UnescapeEscape(s[1..]);
        UnescapeChar(s[0], Escape(s[1..]));
      }
    }
  }

  /** Escaping a text whose breaks are already "\r\n" gives the same
      result as escaping the original. */
  lemma {:induction false} EscapeNormalized(s: string)
    ensures Escape(NormalizeBreaks(s)) == Escape(s)
  {
    if s != [] {
      var rest := if IsBreakPair(s) then s[2..] else s[1..];
      EscapeNormalized(rest);
      if IsBreak(s[0]) {
        var t := "\r\n" + NormalizeBreaks(rest);
        assert IsBreakPair(t) && t[2..] == NormalizeBreaks(rest);
      } else {
        var t := [s[0]] + NormalizeBreaks(rest);
        assert !IsBreakPair(t) && t[1..] == NormalizeBreaks(rest);
      }
    }
  }

  /** Two texts escape alike exactly when they differ at most in which
      line-break forms they use. */
  lemma EscapeSameIff(a: string, b: string)
    ensures Escape(a) == Escape(b) <==> NormalizeBreaks(a) == NormalizeBreaks(b)
  {
    UnescapeEscape(a);
    UnescapeEscape(b);
    EscapeNormalized(a);
    EscapeNormalized(b);
  }

  /** Escaping distributes over a split that does not fall inside a
      two-character break. */
  lemma {:induction false} EscapeAppend(a: string, b: string)
    requires a == [] || b == [] || !IsBreak(a[|a| - 1]) || !IsBreak(b[0])
    ensures Escape(a + b) == Escape(a) + Escape(b)
    decreases |a|
  {
    if a == [] {
      assert a + b == b;
    } else {
      var rest := a[TokenWidth(a)..];
      assert rest == [] || rest[|rest| - 1] == a[|a| - 1];
      EscapeAppend(rest, b);
      AppendStep(a, b);
    }
  }

  /** One step of EscapeAppend: if escaping distributes over `rest + b`,
      where `rest` follows `a`'s first token, it distributes over `a + b`. */
  lemma AppendStep(a: string, b: string)
    requires a != []
    requires b == [] || !IsBreak(a[|a| - 1]) || !IsBreak(b[0])
    requires Escape(a[TokenWidth(a)..] + b) == Escape(a[TokenWidth(a)..]) + Escape(b)
    ensures Escape(a + b) == Escape(a) + Escape(b)
  {
    var t, rest := EscapeToken(a), a[TokenWidth(a)..];
    UnfoldAppend(a, b);
    assert Escape(a) == t + Escape(rest);
    Associate(t, Escape(rest), Escape(b));
  }

  // Regrouping of a concatenation, kept apart so the proofs using it
  // stay small.
  lemma Associate(x: string, y: string, z: string)
    ensures x + (y + z) == (x + y) + z
  {
  }

  /** The first step of escaping `a + b` is the first step of escaping `a`. */
  lemma UnfoldAppend(a: string, b: string)
    requires a != []
    requires b == [] || !IsBreak(a[|a| - 1]) || !IsBreak(b[0])
    ensures Escape(a + b) == EscapeToken(a) + Escape(a[TokenWidth(a)..] + b)
  {
    FirstTokenOfAppend(a, b);
  }

  /** Appending text after `a` does not change how `a`'s first token is
      read, unless the join splits a two-character break. */
  lemma FirstTokenOfAppend(a: string, b: string)
    requires a != []
    requires b == [] || !IsBreak(a[|a| - 1]) || !IsBreak(b[0])
    ensures TokenWidth(a + b) == TokenWidth(a) && EscapeToken(a + b) == EscapeToken(a)
    ensures (a + b)[TokenWidth(a)..] == a[TokenWidth(a)..] + b
  {
    var ab := a + b;
    assert ab[0] == a[0];
    if |a| >= 2 {
      assert ab[1] == a[1];
    }
  }

  /** The four spellings of a line break. */
  predicate IsBreakForm(br: string)
  {
    br == "\n" || br == "\r" || br == "\r\n" || br == "\n\r"
  }

  lemma EscapeBreak(br: string)
    requires IsBreakForm(br)
    ensures br != [] && IsBreak(br[0]) && IsBreak(br[|br| - 1])
    ensures Escape(br) == LB
  {
    if br == "\n" || br == "\r" {
      assert Escape(br) == LB + Escape([]);
    } else {
      assert IsBreakPair(br) && br[2..] == [];
    }
  }

  /** A text bounded on both sides by non-break characters escapes on its
      own. */
  lemma EscapeBetween(p: string, m: string, q: string)
    requires m != []
    requires p == [] || !IsBreak(p[|p| - 1])
    requires q == [] || !IsBreak(q[0])
    ensures Escape(p + m + q) == Escape(p) + Escape(m) + Escape(q)
  {
    var mq := m + q;
    assert p + m + q == p + mq;
    assert mq[0] == m[0];
    EscapeAppend(p, mq);
    EscapeAppend(m, q);
    Associate(Escape(p), Escape(m), Escape(q));
  }

  /** Each of the four break forms between two non-break neighbours comes
      out as exactly one marker. */
  lemma BreakFormsAgree(p: string, q: string, br: string)
    requires IsBreakForm(br)
    requires p == [] || !IsBreak(p[|p| - 1])
    requires q == [] || !IsBreak(q[0])
    ensures Escape(p + br + q) == Escape(p) + LB + Escape(q)
  {
    EscapeBreak(br);
    EscapeBetween(p, br, q);
  }
}
