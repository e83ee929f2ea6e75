/**
 * The handful of Python string builtins the balance-sheet code relies on:
 * `str.strip`, `str.lower`, character filtering with `re.sub`, the substring
 * test `in`, `int`/`float` on the digit strings that survive the filtering,
 * and `"\n".join` / `str.split("\n")`.
 *
 * Characters are Unicode scalar values; the digit, white-space and case
 * classes are restricted to ASCII.
 */
module Text {
  import opened Wrappers

  // ---------------------------------------------------------------------
  // Character classes

  /** Python's `str.isspace()` on the ASCII range: TAB..CR, the four
      information separators and SPACE. */
  predicate IsSpace(c: char) {
    var n := c as int;
    (9 <= n <= 13) || (28 <= n <= 32)
  }

  /** The regular-expression class `\d` (ASCII digits). */
  predicate IsDigit(c: char) {
    '0' <= c <= '9'
  }

  function DigitValue(c: char): (d: nat)
    requires IsDigit(c)
    ensures d < 10
  {
    c as int - '0' as int
  }

  function DigitChar(d: nat): (c: char)
    requires d < 10
    ensures IsDigit(c) && DigitValue(c) == d
  {
    ('0' as int + d) as char
  }

  function LowerChar(c: char): char {
    if 'A' <= c <= 'Z' then (c as int + 32) as char else c
  }

  predicate AllDigits(s: string) {
    forall i :: 0 <= i < |s| ==> IsDigit(s[i])
  }

  predicate HasDigit(s: string) {
    exists i :: 0 <= i < |s| && IsDigit(s[i])
  }

  // ---------------------------------------------------------------------
  // Filtering: `re.sub(r"[^...]", "", s)` and `s.replace(",", "")`

  /** The characters of `s` that `keep` admits, in order. */
  function Filter(s: string, keep: char -> bool): (r: string)
    ensures |r| <= |s|
  {
    if s == [] then [] else (if keep(s[0]) then [s[0]] else []) + Filter(s[1..], keep)
  }

  /** A character survives filtering exactly when it occurs in `s` and `keep` admits it. */
  lemma {:induction false} FilterMembers(s: string, keep: char -> bool)
    ensures forall c :: c in Filter(s, keep) <==> c in s && keep(c)
  {
    if s != [] {
      FilterMembers(s[1..], keep);
      assert s == [s[0]] + s[1..];
    }
  }

  lemma {:induction false} FilterConcat(a: string, b: string, keep: char -> bool)
    ensures Filter(a + b, keep) == Filter(a, keep) + Filter(b, keep)
  {
    if a != [] {
      assert (a + b)[0] == a[0];
      assert (a + b)[1..] == a[1..] + b;
      FilterConcat(a[1..], b, keep);
      calc {
        Filter(a + b, keep);
        (if keep(a[0]) then [a[0]] else []) + Filter(a[1..] + b, keep);
        (if keep(a[0]) then [a[0]] else []) + Filter(a[1..], keep) + Filter(b, keep);
        Filter(a, keep) + Filter(b, keep);
      }
    } else {
      assert a + b == b;
    }
  }

  /** Filtering twice keeps what the stricter filter keeps. */
  lemma {:induction false} FilterFilter(s: string, weak: char -> bool, strict: char -> bool)
    requires forall c :: strict(c) ==> weak(c)
    ensures Filter(Filter(s, weak), strict) == Filter(s, strict)
  {
    if s != [] {
      FilterFilter(s[1..], weak, strict);
      var head := if weak(s[0]) then [s[0]] else [];
      FilterConcat(head, Filter(s[1..], weak), strict);
      if weak(s[0]) {
        assert Filter(head, strict) == if strict(s[0]) then [s[0]] else [] by {
          assert head[1..] == [];
        }
      }
    }
  }

  predicate NotComma(c: char) {
    c != ','
  }

  /** `s.replace(",", "")` */
  function RemoveCommas(s: string): (r: string)
    ensures ',' !in r
  {
    FilterMembers(s, NotComma);
    Filter(s, NotComma)
  }

  /** `re.sub(r"[^\d]", "", s)` */
  function KeepDigits(s: string): (r: string)
    ensures AllDigits(r)
    ensures HasDigit(s) <==> r != []
  {
    var r := Filter(s, IsDigit);
    FilterMembers(s, IsDigit);
    assert r != [] ==> r[0] in s;
    assert HasDigit(s) ==> exists i :: 0 <= i < |s| && s[i] in r;
    r
  }

  // ---------------------------------------------------------------------
  // `str.strip()` and `str.lower()`

  function TrimStart(s: string): (r: string)
    ensures r == [] || !IsSpace(r[0])
    decreases |s|
  {
    if s != [] && IsSpace(s[0]) then TrimStart(s[1..]) else s
  }

  function TrimEnd(s: string): (r: string)
    ensures r == [] || !IsSpace(r[|r| - 1])
    decreases |s|
  {
    if s != [] && IsSpace(s[|s| - 1]) then TrimEnd(s[..|s| - 1]) else s
  }

  /** `str.strip()`: drops leading and trailing white space. */
  function Strip(s: string): (r: string)
    ensures r == [] || (!IsSpace(r[0]) && !IsSpace(r[|r| - 1]))
  {
    var t := TrimStart(s);
    TrimEndKeepsStart(t);
    TrimEnd(t)
  }

  lemma {:induction false} TrimEndKeepsStart(s: string)
    requires s == [] || !IsSpace(s[0])
    ensures TrimEnd(s) == [] || !IsSpace(TrimEnd(s)[0])
    decreases |s|
  {
    if s != [] && IsSpace(s[|s| - 1]) {
      var p := s[..|s| - 1];
      assert p == [] || p[0] == s[0];
      TrimEndKeepsStart(p);
    }
  }

  /** A filter that drops white space does not see what `strip` removed. */
  lemma {:induction false} FilterStrip(s: string, keep: char -> bool)
    requires forall c :: IsSpace(c) ==> !keep(c)
    ensures Filter(Strip(s), keep) == Filter(s, keep)
  {
    FilterTrimStart(s, keep);
    FilterTrimEnd(TrimStart(s), keep);
  }

  lemma {:induction false} FilterTrimStart(s: string, keep: char -> bool)
    requires forall c :: IsSpace(c) ==> !keep(c)
    ensures Filter(TrimStart(s), keep) == Filter(s, keep)
    decreases |s|
  {
    if s != [] && IsSpace(s[0]) {
      FilterTrimStart(s[1..], keep);
    }
  }

  lemma {:induction false} FilterTrimEnd(s: string, keep: char -> bool)
    requires forall c :: IsSpace(c) ==> !keep(c)
    ensures Filter(TrimEnd(s), keep) == Filter(s, keep)
    decreases |s|
  {
    if s != [] && IsSpace(s[|s| - 1]) {
      var p := s[..|s| - 1];
      assert s == p + [s[|s| - 1]];
      FilterConcat(p, [s[|s| - 1]], keep);
      FilterTrimEnd(p, keep);
    }
  }

  /** `str.lower()` */
  function Lower(s: string): (r: string)
    ensures |r| == |s|
    ensures forall i :: 0 <= i < |s| ==> r[i] == LowerChar(s[i])
  {
    if s == [] then [] else [LowerChar(s[0])] + Lower(s[1..])
  }

  /** Text without upper-case letters is its own lower case. */
  lemma LowerUnchanged(s: string)
    requires forall i :: 0 <= i < |s| ==> LowerChar(s[i]) == s[i]
    ensures Lower(s) == s
  {
  }

  lemma LowerIdempotent(s: string)
    ensures Lower(Lower(s)) == Lower(s)
  {
  }

  // ---------------------------------------------------------------------
  // Substring test `needle in haystack`

  predicate StartsWith(s: string, prefix: string) {
    |prefix| <= |s| && s[..|prefix|] == prefix
  }

  /** Python's `needle in haystack` on strings (the empty string is in every string). */
  predicate Contains(haystack: string, needle: string)
    decreases |haystack|
  {
    StartsWith(haystack, needle) || (haystack != [] && Contains(haystack[1..], needle))
  }

  /** `needle` occurs in `haystack` starting at offset `k`. */
  predicate OccursAt(haystack: string, needle: string, k: nat) {
    k + |needle| <= |haystack| && haystack[k..k + |needle|] == needle
  }

  /** `needle in haystack` holds exactly when `needle` occurs at some offset. */
  lemma {:induction false} ContainsAt(haystack: string, needle: string)
    ensures Contains(haystack, needle) <==> exists k: nat :: OccursAt(haystack, needle, k)
    decreases |haystack|
  {
    if StartsWith(haystack, needle) {
      assert OccursAt(haystack, needle, 0);
    } else if haystack != [] {
      ContainsAt(haystack[1..], needle);
      if Contains(haystack[1..], needle) {
        var k: nat :| OccursAt(haystack[1..], needle, k);
        assert haystack[k + 1..k + 1 + |needle|] == haystack[1..][k..k + |needle|];
        assert OccursAt(haystack, needle, k + 1);
      }
      if exists k: nat :: OccursAt(haystack, needle, k) {
        var k: nat :| OccursAt(haystack, needle, k);
        assert k != 0;
        assert haystack[1..][k - 1..k - 1 + |needle|] == haystack[k..k + |needle|];
        assert OccursAt(haystack[1..], needle, k - 1);
      }
    } else {
      assert !StartsWith(haystack, needle);
      assert forall k: nat :: !OccursAt(haystack, needle, k);
    }
  }

  // ---------------------------------------------------------------------
  // Decimal numerals: `int(digits)` and `float(text)`

  /** The value of the digits after a decimal point: `"25"` is 0.25. */
  function FractionValue(s: string): (r: real)
    requires AllDigits(s)
    ensures 0.0 <= r <= 1.0
  {
    if s == [] then 0.0 else (DigitValue(s[0]) as real + FractionValue(s[1..])) / 10.0
  }

  /** `int(s)` for a string of ASCII digits. */
  function DigitsValue(s: string): nat
    requires AllDigits(s)
  {
    if s == [] then 0 else 10 * DigitsValue(s[..|s| - 1]) + DigitValue(s[|s| - 1])
  }

  /** `str(n)` for a natural number. */
  function NatToDigits(n: nat): (s: string)
    ensures AllDigits(s) && |s| > 0
  {
    (if n < 10 then [] else NatToDigits(n / 10)) + [DigitChar(n % 10)]
  }

  /** `int(str(n)) == n` */
  lemma {:induction false} DigitsRoundTrip(n: nat)
    ensures DigitsValue(NatToDigits(n)) == n
  {
    var s := NatToDigits(n);
    assert s[..|s| - 1] == if n < 10 then [] else NatToDigits(n / 10);
    if n >= 10 {
      DigitsRoundTrip(n / 10);
    }
  }

  /** Leading zeros do not change the value of a numeral. */
  lemma {:induction false} LeadingZeros(z: string, s: string)
    requires forall i :: 0 <= i < |z| ==> z[i] == '0'
    requires AllDigits(s)
    ensures AllDigits(z + s) && DigitsValue(z + s) == DigitsValue(s)
    decreases |s|
  {
    if s == [] {
      assert z + s == z;
      AllZeros(z);
    } else {
      var p := s[..|s| - 1];
      assert (z + s)[..|z + s| - 1] == z + p;
      LeadingZeros(z, p);
    }
  }

  lemma {:induction false} AllZeros(z: string)
    requires forall i :: 0 <= i < |z| ==> z[i] == '0'
    ensures AllDigits(z) && DigitsValue(z) == 0
  {
    if z != [] {
      AllZeros(z[..|z| - 1]);
    }
  }

  /** Position of the first `c` in `s`, or `|s|` when there is none. */
  function IndexOf(s: string, c: char): (k: nat)
    ensures k <= |s|
    ensures k < |s| ==> s[k] == c
    ensures forall j :: 0 <= j < k ==> s[j] != c
  {
    if s == [] then 0 else if s[0] == c then 0 else 1 + IndexOf(s[1..], c)
  }

  /** An unsigned decimal numeral `D+` , `D+.D*` or `.D+` and its exact value. */
  function ParseUnsigned(s: string): (r: Option<real>)
    ensures r.Some? ==> HasDigit(s) && r.value >= 0.0
    ensures r.Some? ==> '-' !in s && '(' !in s && ')' !in s
  {
    var k := IndexOf(s, '.');
    var whole := s[..k];
    var frac := if k < |s| then s[k + 1..] else [];
    if AllDigits(whole) && AllDigits(frac) && |whole| + |frac| > 0 then
      NumeralShape(s, k);
      Some(DigitsValue(whole) as real + FractionValue(frac))
    else
      None
  }

  lemma NumeralShape(s: string, k: nat)
    requires k <= |s| && (k < |s| ==> s[k] == '.')
    requires AllDigits(s[..k])
    requires k < |s| ==> AllDigits(s[k + 1..])
    requires k > 0 || k + 1 < |s|
    ensures HasDigit(s)
    ensures '-' !in s && '(' !in s && ')' !in s
  {
    if k > 0 {
      assert IsDigit(s[..k][0]);
    } else {
      assert IsDigit(s[k + 1..][0]);
    }
    forall i | 0 <= i < |s|
      ensures s[i] != '-' && s[i] != '(' && s[i] != ')'
    {
      if i < k {
        assert IsDigit(s[..k][i]);
      } else if i > k {
        assert IsDigit(s[k + 1..][i - k - 1]);
      }
    }
  }

  /**
   * Python's `float(s)` on strings over the alphabet digits, `(`, `)`, `.`
   * and `-`: an optional minus sign, then an unsigned numeral. Any other
   * arrangement (`"-"`, `"--5"`, `"1.2.3"`, `"(5)"`) is a `ValueError`,
   * modelled as `None`.
   */
  function ParseDecimal(s: string): (r: Option<real>)
    ensures r.Some? ==> HasDigit(s)
    ensures r.Some? ==> '(' !in s && ')' !in s
  {
    if |s| > 0 && s[0] == '-' then
      SignedShape(s);
      match ParseUnsigned(s[1..])
      case Some(v) => Some(-v)
      case None => None
    else
      ParseUnsigned(s)
  }

  lemma SignedShape(s: string)
    requires |s| > 0 && s[0] == '-'
    ensures ParseUnsigned(s[1..]).Some? ==> HasDigit(s) && '(' !in s && ')' !in s
  {
    if ParseUnsigned(s[1..]).Some? {
      assert s == ['-'] + s[1..];
      var i :| 0 <= i < |s[1..]| && IsDigit(s[1..][i]);
      assert IsDigit(s[i + 1]);
    }
  }

  /** A minus sign in front of an unsigned numeral negates its value. */
  lemma ParseDecimalNegative(u: string, v: real)
    requires ParseUnsigned(u) == Some(v)
    ensures ParseDecimal("-" + u) == Some(-v)
  {
    assert ("-" + u)[1..] == u;
  }

  /** `float(str(n)) == n` */
  lemma ParseNatDigits(n: nat)
    ensures ParseDecimal(NatToDigits(n)) == Some(n as real)
  {
    var s := NatToDigits(n);
    assert s[0] != '-';
    assert IndexOf(s, '.') == |s|;
    assert s[..|s|] == s;
    DigitsRoundTrip(n);
  }

  /** `float("-" + str(n)) == -n` */
  lemma ParseNegatedNatDigits(n: nat)
    ensures ParseDecimal("-" + NatToDigits(n)) == Some(-(n as real))
  {
    var s := "-" + NatToDigits(n);
    assert s[1..] == NatToDigits(n);
    ParseNatDigits(n);
  }

  // ---------------------------------------------------------------------
  // Ordering of text: SQLite's BINARY collation, character by character,
  // a proper prefix first

  predicate StrLe(a: string, b: string) {
    if a == [] then true
    else if b == [] then false
    else if a[0] != b[0] then a[0] < b[0]
    else StrLe(a[1..], b[1..])
  }

  lemma {:induction false} StrLeTotal(a: string, b: string)
    ensures StrLe(a, b) || StrLe(b, a)
  {
    if a != [] && b != [] && a[0] == b[0] {
      StrLeTotal(a[1..], b[1..]);
    }
  }

  lemma {:induction false} StrLeAntisymmetric(a: string, b: string)
    requires StrLe(a, b) && StrLe(b, a)
    ensures a == b
  {
    if a != [] && b != [] {
      StrLeAntisymmetric(a[1..], b[1..]);
      assert a == [a[0]] + a[1..] && b == [b[0]] + b[1..];
    }
  }

  lemma {:induction false} StrLeTransitive(a: string, b: string, c: string)
    requires StrLe(a, b) && StrLe(b, c)
    ensures StrLe(a, c)
  {
    if a != [] && b != [] && c != [] && a[0] == b[0] && b[0] == c[0] {
      StrLeTransitive(a[1..], b[1..], c[1..]);
    }
  }

  // ---------------------------------------------------------------------
  // `"\n".join(lines)` and `text.split("\n")`

  function Join(lines: seq<string>, sep: char): string {
    if |lines| == 0 then ""
    else if |lines| == 1 then lines[0]
    else lines[0] + [sep] + Join(lines[1..], sep)
  }

  /** Python's `text.split(sep)` for a one-character separator. */
  function Split(s: string, sep: char): (r: seq<string>)
    ensures |r| >= 1
  {
    if s == [] then [""]
    else
      var rest := Split(s[1..], sep);
      if s[0] == sep then [""] + rest else [[s[0]] + rest[0]] + rest[1..]
  }

  lemma {:induction false} SplitPiece(a: string, b: string, sep: char)
    requires sep !in a
    ensures Split(a + [sep] + b, sep) == [a] + Split(b, sep)
  {
    if a != [] {
      assert (a + [sep] + b)[1..] == a[1..] + [sep] + b;
      assert (a + [sep] + b)[0] == a[0];
      SplitPiece(a[1..], b, sep);
      assert [a[0]] + a[1..] == a;
    }
  }

  lemma {:induction false} SplitNoSeparator(a: string, sep: char)
    requires sep !in a
    ensures Split(a, sep) == [a]
  {
    if a != [] {
      SplitNoSeparator(a[1..], sep);
      assert [a[0]] + a[1..] == a;
    }
  }

  /** Splitting a join gives the lines back, when no line holds the separator. */
  lemma {:induction false} SplitJoin(lines: seq<string>, sep: char)
    requires |lines| > 0
    requires forall i :: 0 <= i < |lines| ==> sep !in lines[i]
    ensures Split(Join(lines, sep), sep) == lines
  {
    if |lines| == 1 {
      SplitNoSeparator(lines[0], sep);
    } else {
      SplitPiece(lines[0], Join(lines[1..], sep), sep);
      SplitJoin(lines[1..], sep);
    }
  }
}
