/**
 * The JavaScript string and number built-ins the site builder relies on:
 * `String.prototype.trim`, ASCII `toLowerCase`, `parseInt` of a leading
 * decimal run, number-to-string conversion and the global replacement of
 * "; " by ";\n  " used when pretty-printing style rules.
 */
module JsString {
  import opened Wrappers

  // ---------------------------------------------------------------- trim

  /** The characters JavaScript's `trim` removes: WhiteSpace and LineTerminator. */
  predicate IsWhitespace(c: char) {
    c == '\t' || c == '\n' || c == '\U{000B}' || c == '\U{000C}' || c == '\r' || c == ' '
    || c == '\U{00A0}' || c == '\U{1680}' || ('\U{2000}' <= c <= '\U{200A}')
    || c == '\U{2028}' || c == '\U{2029}' || c == '\U{202F}' || c == '\U{205F}'
    || c == '\U{3000}' || c == '\U{FEFF}'
  }

  predicate AllWhitespace(s: string) {
    forall k :: 0 <= k < |s| ==> IsWhitespace(s[k])
  }

  /** Drops leading whitespace. */
  function TrimStart(s: string): (r: string)
    ensures |r| <= |s| && r == s[|s| - |r|..]
    ensures AllWhitespace(s[..|s| - |r|])
    ensures r == [] || !IsWhitespace(r[0])
  {
    if s == [] || !IsWhitespace(s[0]) then s else TrimStart(s[1..])
  }

  /** Drops trailing whitespace. */
  function TrimEnd(s: string): (r: string)
    ensures |r| <= |s| && r == s[..|r|]
    ensures AllWhitespace(s[|r|..])
    ensures r == [] || !IsWhitespace(r[|r| - 1])
  {
    if s == [] || !IsWhitespace(s[|s| - 1]) then s else TrimEnd(s[..|s| - 1])
  }

  /** `s.trim()`. */
  function Trim(s: string): string {
    TrimEnd(TrimStart(s))
  }

  /** Where the trimmed text sits in the original: between a whitespace prefix and a whitespace suffix. */
  lemma TrimBounds(s: string) returns (i: nat, j: nat)
    ensures i <= j <= |s| && Trim(s) == s[i..j]
    ensures AllWhitespace(s[..i]) && AllWhitespace(s[j..])
  {
    var t := TrimStart(s);
    var u := TrimEnd(t);
    i := |s| - |t|;
    j := i + |u|;
    assert t == s[i..];
    assert u == s[i..j];
    assert s[j..] == t[|u|..];
  }

  /** Trim removes exactly a whitespace prefix and a whitespace suffix, and no more. */
  lemma TrimShape(s: string)
    ensures exists i, j :: 0 <= i <= j <= |s| && Trim(s) == s[i..j]
                           && AllWhitespace(s[..i]) && AllWhitespace(s[j..])
    ensures Trim(s) == [] || (!IsWhitespace(Trim(s)[0]) && !IsWhitespace(Trim(s)[|Trim(s)| - 1]))
  {
    var i, j := TrimBounds(s);
    var t := TrimStart(s);
    var u := TrimEnd(t);
    assert u != [] ==> u[0] == t[0];
  }

  /** A string trims to "" exactly when it consists of whitespace only. */
  lemma TrimEmptyIff(s: string)
    ensures Trim(s) == [] <==> AllWhitespace(s)
  {
    var t := TrimStart(s);
    if Trim(s) == [] {
      assert t == [];
      assert s == s[..|s| - |t|];
    } else {
      assert t != [];
      assert t[0] == s[|s| - |t|];
    }
  }

  /** Trimming twice is trimming once. */
  lemma TrimIdempotent(s: string)
    ensures Trim(Trim(s)) == Trim(s)
  {
    var r := Trim(s);
    TrimShape(s);
    assert r == [] || !IsWhitespace(r[0]);
    assert TrimStart(r) == r;
    assert r == [] || !IsWhitespace(r[|r| - 1]);
    assert TrimEnd(r) == r;
  }

  // ------------------------------------------------------------ lowercase

  /** ASCII part of `toLowerCase`: 'A'..'Z' become 'a'..'z', everything else is kept. */
  function LowerChar(c: char): char {
    if 'A' <= c <= 'Z' then (c as int + 32) as char else c
  }

  function ToLower(s: string): (r: string)
    ensures |r| == |s| && forall k :: 0 <= k < |s| ==> r[k] == LowerChar(s[k])
  {
    seq(|s|, k requires 0 <= k < |s| => LowerChar(s[k]))
  }

  // -------------------------------------------------------------- numbers

  predicate IsDigit(c: char) {
    '0' <= c <= '9'
  }

  predicate AllDigits(s: string) {
    forall k :: 0 <= k < |s| ==> IsDigit(s[k])
  }

  function DigitChar(d: nat): (c: char)
    requires d < 10
    ensures IsDigit(c) && c as int - '0' as int == d
  {
    ('0' as int + d) as char
  }

  /** The decimal text of a non-negative number, as `String(n)` or `${n}` produce it. */
  function Decimal(n: nat): (r: string)
    ensures r != [] && AllDigits(r)
    ensures n > 0 ==> r[0] != '0'
    decreases n
  {
    if n < 10 then [DigitChar(n)] else Decimal(n / 10) + [DigitChar(n % 10)]
  }

  /** The value of a run of decimal digits. */
  function DigitsValue(s: string): nat
    requires AllDigits(s)
  {
    if s == [] then 0 else DigitsValue(s[..|s| - 1]) * 10 + (s[|s| - 1] as int - '0' as int)
  }

  /** The longest prefix of `s` made of decimal digits. */
  function LeadingDigits(s: string): (r: string)
    ensures |r| <= |s| && r == s[..|r|] && AllDigits(r)
    ensures |r| < |s| ==> !IsDigit(s[|r|])
  {
    if s == [] || !IsDigit(s[0]) then [] else [s[0]] + LeadingDigits(s[1..])
  }

  /**
   * `parseInt(s)` for the strings this system feeds it (no sign, no leading
   * blanks, no radix prefix): the value of the leading decimal run, or None
   * where JavaScript yields NaN.
   */
  function ParseInt(s: string): Option<nat> {
    var d := LeadingDigits(s);
    if d == [] then None else Some(DigitsValue(d))
  }

  lemma {:induction false} DecimalValue(n: nat)
    ensures DigitsValue(Decimal(n)) == n
    decreases n
  {
    if n >= 10 {
      DecimalValue(n / 10);
      var r := Decimal(n);
      assert r[..|r| - 1] == Decimal(n / 10);
    }
  }

  /** parseInt reads back the number that was printed, whatever non-digit text follows it. */
  lemma ParseIntDecimal(n: nat, rest: string)
    requires rest == [] || !IsDigit(rest[0])
    ensures ParseInt(Decimal(n) + rest) == Some(n)
  {
    var s := Decimal(n) + rest;
    LeadingDigitsOfDigits(Decimal(n), rest);
    DecimalValue(n);
  }

  lemma {:induction false} LeadingDigitsOfDigits(d: string, rest: string)
    requires AllDigits(d)
    requires rest == [] || !IsDigit(rest[0])
    ensures LeadingDigits(d + rest) == d
  {
    if d != [] {
      assert (d + rest)[1..] == d[1..] + rest;
      LeadingDigitsOfDigits(d[1..], rest);
    } else {
      assert d + rest == rest;
    }
  }

  /** Distinct numbers print differently. */
  lemma DecimalInjective(m: nat, n: nat)
    ensures Decimal(m) == Decimal(n) ==> m == n
  {
    if Decimal(m) == Decimal(n) {
      DecimalValue(m);
      DecimalValue(n);
    }
  }

  // -------------------------------------------- style-text line breaking

  /** `s.replace(/; /g, ';\n  ')`. */
  function BreakDeclarations(s: string): (r: string)
    ensures s != [] ==> r != [] && r[0] == s[0]
  {
    if |s| < 2 then s
    else if s[0] == ';' && s[1] == ' ' then ";\n  " + BreakDeclarations(s[2..])
    else [s[0]] + BreakDeclarations(s[1..])
  }

  predicate HasSemicolonSpace(s: string) {
    exists k :: 0 <= k < |s| - 1 && s[k] == ';' && s[k + 1] == ' '
  }

  /** After the replacement no "; " is left: every such pair was broken. */
  lemma {:induction false} BreakDeclarationsComplete(s: string)
    ensures !HasSemicolonSpace(BreakDeclarations(s))
  {
    if |s| < 2 {
    } else if s[0] == ';' && s[1] == ' ' {
      var t := BreakDeclarations(s[2..]);
      BreakDeclarationsComplete(s[2..]);
      var r := ";\n  " + t;
      forall k | 0 <= k < |r| - 1 && r[k] == ';' ensures r[k + 1] != ' ' {
        if k >= 4 { assert r[k] == t[k - 4] && r[k + 1] == t[k - 3]; }
      }
    } else {
      var t := BreakDeclarations(s[1..]);
      BreakDeclarationsComplete(s[1..]);
      var r := [s[0]] + t;
      forall k | 0 <= k < |r| - 1 && r[k] == ';' ensures r[k + 1] != ' ' {
        if k >= 1 { assert r[k] == t[k - 1] && r[k + 1] == t[k]; }
        else { assert r[1] == s[1]; }
      }
    }
  }

  /** Text without any "; " is left as it is. */
  lemma {:induction false} BreakDeclarationsIdentity(s: string)
    requires !HasSemicolonSpace(s)
    ensures BreakDeclarations(s) == s
  {
    if |s| >= 2 {
      assert !(s[0] == ';' && s[1] == ' ');
      assert !HasSemicolonSpace(s[1..]) by {
        forall k | 0 <= k < |s[1..]| - 1 && s[1..][k] == ';' ensures s[1..][k + 1] != ' ' {
          assert s[k + 1] == ';';
        }
      }
      BreakDeclarationsIdentity(s[1..]);
      assert s == [s[0]] + s[1..];
    }
  }

  lemma BreakDeclarationsSkip(c: char, u: string)
    requires !(c == ';' && u != [] && u[0] == ' ')
    ensures BreakDeclarations([c] + u) == [c] + BreakDeclarations(u)
  {
    var s := [c] + u;
    if u != [] {
      assert s[0] == c && s[1] == u[0] && s[1..] == u;
    }
  }

  lemma BreakDeclarationsMatch(u: string)
    ensures BreakDeclarations("; " + u) == ";\n  " + BreakDeclarations(u)
  {
    var s := "; " + u;
    assert s[0] == ';' && s[1] == ' ' && s[2..] == u;
  }

  /** Each "; " of the text gets its own line, wherever it stands: the text breaks into independent halves around it. */
  lemma {:induction false} BreakDeclarationsAt(a: string, b: string)
    ensures BreakDeclarations(a + "; " + b) == BreakDeclarations(a) + ";\n  " + BreakDeclarations(b)
    decreases |a|
  {
    var nl := ";\n  ";
    var tail := nl + BreakDeclarations(b);
    ConcatAssoc(BreakDeclarations(a), nl, BreakDeclarations(b));
    if a == [] {
      assert a + "; " + b == "; " + b;
      BreakDeclarationsMatch(b);
    } else {
      var head, rest := if |a| >= 2 && a[0] == ';' && a[1] == ' ' then "; " else [a[0]], if |a| >= 2 && a[0] == ';' && a[1] == ' ' then a[2..] else a[1..];
      var out := if head == "; " then nl else head;
      assert a == head + rest;
      assert a + "; " + b == head + (rest + "; " + b);
      BreakDeclarationsAt(rest, b);
      ConcatAssoc(BreakDeclarations(rest), nl, BreakDeclarations(b));
      if head == "; " {
        BreakDeclarationsMatch(rest + "; " + b);
        BreakDeclarationsMatch(rest);
      } else {
        assert (rest + "; " + b)[0] == if rest == [] then ';' else rest[0];
        BreakDeclarationsSkip(a[0], rest + "; " + b);
        BreakDeclarationsSkip(a[0], rest);
      }
      assert BreakDeclarations(head + (rest + "; " + b)) == out + (BreakDeclarations(rest) + tail);
      assert BreakDeclarations(a) == out + BreakDeclarations(rest);
      ConcatAssoc(out, BreakDeclarations(rest), tail);
    }
  }

  lemma ConcatAssoc(p: string, x: string, y: string)
    ensures p + (x + y) == (p + x) + y
  {
  }

  // ------------------------------------------------------------ infixes

  /** `t` occurs in `s` at position `k`. */
  predicate InfixAt(t: string, s: string, k: int) {
    0 <= k <= |s| - |t| && s[k..k + |t|] == t
  }

  /** `t` occurs in `s` (JavaScript's `s.includes(t)`). */
  predicate IsInfix(t: string, s: string) {
    exists k :: 0 <= k <= |s| && InfixAt(t, s, k)
  }
}
