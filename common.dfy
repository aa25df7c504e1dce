/** Characters, digit strings and text helpers shared by every other module:
    the ASCII reading of Python's `\d`, Python's `\s` (the `str.isspace` set),
    `str.lower()` restricted to ASCII and Latin-1, decimal rendering of integers
    (`str(n)`) and substring containment (`needle in haystack`). */
module Common {

  datatype Option<T> = None | Some(value: T)

  // ---------------------------------------------------------------- digits

  predicate IsDigit(c: char) { '0' <= c <= '9' }

  function DigitValue(c: char): (d: nat)
    requires IsDigit(c)
    ensures d < 10
  {
    c as int - '0' as int
  }

  function DigitChar(d: nat): (c: char)
    requires d < 10
    ensures IsDigit(c) && DigitValue(c) == d
  {
    ('0' as int + d) as char
  }

  predicate AllDigits(s: string) { forall i :: 0 <= i < |s| ==> IsDigit(s[i]) }

  /** The characters of `s` that are decimal digits, in order: what
      `re.sub(r"[^\d]", "", s)` leaves. */
  function DigitsOf(s: string): string
  {
    if s == [] then []
    else (if IsDigit(s[0]) then [s[0]] else []) + DigitsOf(s[1..])
  }

  /** What is left is digits only, and no longer than the text. */
  lemma {:induction false} DigitsOfDigits(s: string)
    ensures AllDigits(DigitsOf(s)) && |DigitsOf(s)| <= |s|
  {
    if s != [] {
      DigitsOfDigits(s[1..]);
    }
  }

  /** Nothing is left exactly when the text holds no digit. */
  lemma {:induction false} DigitsOfEmpty(s: string)
    ensures DigitsOf(s) == [] <==> forall i :: 0 <= i < |s| ==> !IsDigit(s[i])
  {
    if s != [] {
      DigitsOfEmpty(s[1..]);
      assert forall i :: 1 <= i < |s| ==> s[i] == s[1..][i - 1];
    }
  }

  /** The base-10 value of a digit string; the empty string reads as 0. */
  function DigitsValue(s: string): nat
    requires AllDigits(s)
  {
    if s == [] then 0 else DigitsValue(s[..|s| - 1]) * 10 + DigitValue(s[|s| - 1])
  }

  function Pow10(n: nat): (p: nat)
    ensures p >= 1
  {
    if n == 0 then 1 else 10 * Pow10(n - 1)
  }

  /** The value of a concatenation shifts the first part by the length of the second. */
  lemma {:induction false} DigitsValueAppend(a: string, b: string)
    requires AllDigits(a) && AllDigits(b)
    ensures AllDigits(a + b)
    ensures DigitsValue(a + b) == DigitsValue(a) * Pow10(|b|) + DigitsValue(b)
  {
    assert AllDigits(a + b) by {
      forall i | 0 <= i < |a + b| ensures IsDigit((a + b)[i]) {
        if i < |a| { assert (a + b)[i] == a[i]; } else { assert (a + b)[i] == b[i - |a|]; }
      }
    }
    if b == [] {
      assert a + b == a;
    } else {
      var b' := b[..|b| - 1];
      var d := DigitValue(b[|b| - 1]);
      assert (a + b)[..|a + b| - 1] == a + b';
      assert (a + b)[|a + b| - 1] == b[|b| - 1];
      DigitsValueAppend(a, b');
      var x, y, p := DigitsValue(a), DigitsValue(b'), Pow10(|b'|);
      assert DigitsValue(a + b) == DigitsValue(a + b') * 10 + d;
      assert DigitsValue(b) == y * 10 + d;
      assert Pow10(|b|) == 10 * p;
      MulShift(x, p, y, d);
    }
  }

  lemma MulShift(x: int, p: int, y: int, d: int)
    ensures (x * p + y) * 10 + d == x * (10 * p) + (y * 10 + d)
  {
  }

  /** A digit string of length n denotes a value below 10^n. */
  lemma {:induction false} DigitsValueBound(s: string)
    requires AllDigits(s)
    ensures DigitsValue(s) < Pow10(|s|)
  {
    if s != [] {
      DigitsValueBound(s[..|s| - 1]);
    }
  }

  // ------------------------------------------------------- str(n) for ints

  /** `str(n)` for a non-negative integer: its decimal digits, no leading zero. */
  function NatToString(n: nat): (s: string)
    ensures AllDigits(s) && |s| >= 1
    decreases n
  {
    if n < 10 then [DigitChar(n)] else NatToString(n / 10) + [DigitChar(n % 10)]
  }

  /** `str(i)` for any integer: a minus sign before the digits of a negative one. */
  function IntToString(i: int): string
  {
    if i < 0 then "-" + NatToString(-i) else NatToString(i)
  }

  predicate NoLeadingZero(s: string) { |s| >= 1 && (s[0] == '0' ==> |s| == 1) }

  /** Reading back the rendering of n gives n, and the rendering is canonical. */
  lemma {:induction false} NatToStringRoundTrip(n: nat)
    ensures DigitsValue(NatToString(n)) == n
    ensures NoLeadingZero(NatToString(n))
    decreases n
  {
    if n >= 10 {
      NatToStringRoundTrip(n / 10);
      var p := NatToString(n / 10);
      var s := p + [DigitChar(n % 10)];
      assert s[..|s| - 1] == p;
      assert p[0] != '0';
      assert s[0] == p[0];
    }
  }

  /** Conversely, a canonical digit string is the rendering of its own value. */
  lemma {:induction false} DigitsValueRoundTrip(s: string)
    requires AllDigits(s) && NoLeadingZero(s)
    ensures NatToString(DigitsValue(s)) == s
    decreases |s|
  {
    if |s| > 1 {
      var p := s[..|s| - 1];
      var d := DigitValue(s[|s| - 1]);
      assert p[0] == s[0];
      assert AllDigits(p);
      if DigitsValue(p) == 0 {
        ZeroLeadingDigit(p);
        assert false;
      }
      DigitsValueRoundTrip(p);
      var n := DigitsValue(s);
      assert n == DigitsValue(p) * 10 + d;
      assert n / 10 == DigitsValue(p) && n % 10 == d;
      assert DigitChar(d) == s[|s| - 1];
      assert s == p + [s[|s| - 1]];
    }
  }

  /** A digit string with a non-zero first digit has a non-zero value. */
  lemma {:induction false} ZeroLeadingDigit(s: string)
    requires AllDigits(s) && |s| >= 1 && DigitsValue(s) == 0
    ensures s[0] == '0'
    decreases |s|
  {
    if |s| > 1 {
      var p := s[..|s| - 1];
      ZeroLeadingDigit(p);
    }
  }

  // -------------------------------------------------- whitespace and case

  /** Python's `\s` in a str pattern: the characters for which `str.isspace()` holds. */
  predicate IsSpace(c: char)
  {
    c == ' ' || c == '\t' || c == '\n' || c == '\r' || c == '\U{0B}' || c == '\U{0C}' ||
    ('\U{1C}' <= c <= '\U{1F}') || c == '\U{85}' || c == '\U{A0}' || c == '\U{1680}' ||
    ('\U{2000}' <= c <= '\U{200A}') || c == '\U{2028}' || c == '\U{2029}' ||
    c == '\U{202F}' || c == '\U{205F}' || c == '\U{3000}'
  }

  predicate IsUpper(c: char)
  {
    ('A' <= c <= 'Z') || ('\U{C0}' <= c <= '\U{DE}' && c != '\U{D7}')
  }

  /** `str.lower()` on one character, for the ASCII and Latin-1 upper-case letters. */
  function Lower(c: char): (r: char)
    ensures IsUpper(c) ==> r as int == c as int + 32
    ensures !IsUpper(c) ==> r == c
  {
    if IsUpper(c) then (c as int + 32) as char else c
  }

  function LowerStr(s: string): (r: string)
    ensures |r| == |s|
    ensures forall i :: 0 <= i < |s| ==> r[i] == Lower(s[i])
  {
    if s == [] then [] else [Lower(s[0])] + LowerStr(s[1..])
  }

  // ------------------------------------------------------ text predicates

  predicate StartsWith(s: string, prefix: string)
  {
    |prefix| <= |s| && s[..|prefix|] == prefix
  }

  /** `needle in haystack` for strings. */
  predicate Contains(haystack: string, needle: string)
    decreases |haystack|
  {
    StartsWith(haystack, needle) || (|haystack| > 0 && Contains(haystack[1..], needle))
  }

  /** `s.rstrip("/")`: every trailing slash removed. */
  function RStripSlash(s: string): (r: string)
    ensures |r| <= |s| && r == s[..|r|]
    ensures r == [] || r[|r| - 1] != '/'
    ensures forall i :: |r| <= i < |s| ==> s[i] == '/'
  {
    if s == [] || s[|s| - 1] != '/' then s else RStripSlash(s[..|s| - 1])
  }

  // ------------------------------------------------ int() and float() of text

  /** The digits of a text, read as one base-10 integer; None when there are none. */
  function DigitsReading(s: string): (r: Option<int>)
    ensures r.Some? ==> r.value >= 0
  {
    var ds := DigitsOf(s);
    DigitsOfDigits(s);
    if ds == [] then None else Some(DigitsValue(ds))
  }

  predicate IsDecimalChar(c: char) { IsDigit(c) || c == '.' }


  /** Index of the first '.', or |t| when there is none. */
  function DotIndex(t: string): (k: nat)
    ensures k <= |t|
    ensures forall i :: 0 <= i < k ==> t[i] != '.'
    ensures k < |t| ==> t[k] == '.'
  {
    if t == [] then 0 else if t[0] == '.' then 0 else 1 + DotIndex(t[1..])
  }

  predicate HasDigit(t: string) { exists i :: 0 <= i < |t| && IsDigit(t[i]) }

  /** The number written "w.f": w + f/10^|f| (w or f may be empty). */
  function DecimalValue(w: string, f: string): (v: real)
    requires AllDigits(w) && AllDigits(f)
    ensures v >= DigitsValue(w) as real
  {
    DigitsValue(w) as real + DigitsValue(f) as real / Pow10(|f|) as real
  }

  /** Python's `float()` on a text of digits and dots: None where it would raise. */
  function ParseDecimal(t: string): (r: Option<real>)
    requires forall i :: 0 <= i < |t| ==> IsDecimalChar(t[i])
    ensures r.Some? ==> r.value >= 0.0
  {
    var k := DotIndex(t);
    var whole := t[..k];
    WholeIsDigits(t);
    if k == |t| then
      if whole == [] then None else Some(DigitsValue(whole) as real)
    else
      var frac := t[k + 1..];
      if !AllDigits(frac) then None
      else if whole == [] && frac == [] then None
      else Some(DecimalValue(whole, frac))
  }

  lemma WholeIsDigits(t: string)
    requires forall i :: 0 <= i < |t| ==> IsDecimalChar(t[i])
    ensures AllDigits(t[..DotIndex(t)])
    ensures multiset(t[..DotIndex(t)])['.'] == 0
  {
    var whole := t[..DotIndex(t)];
    forall i | 0 <= i < |whole| ensures IsDigit(whole[i]) {
      assert whole[i] == t[i] && t[i] != '.' && IsDecimalChar(t[i]);
    }
    NoDotCount(whole);
  }

  lemma {:induction false} NoDotCount(s: string)
    requires AllDigits(s)
    ensures multiset(s)['.'] == 0
  {
    if s != [] {
      NoDotCount(s[1..]);
      assert s == [s[0]] + s[1..];
    }
  }

  /** `float()` on a text of digits and dots succeeds exactly when the text has a
      digit and at most one dot. */
  lemma ParseDecimalAccepts(t: string)
    requires forall i :: 0 <= i < |t| ==> IsDecimalChar(t[i])
    ensures ParseDecimal(t).Some? <==> HasDigit(t) && multiset(t)['.'] <= 1
  {
    var k := DotIndex(t);
    var whole := t[..k];
    WholeIsDigits(t);
    if k == |t| {
      assert t == whole;
      if whole != [] {
        assert IsDigit(t[0]);
      }
    } else {
      var frac := t[k + 1..];
      assert t == whole + ['.'] + frac;
      assert multiset(t) == multiset(whole) + multiset{'.'} + multiset(frac);
      if !AllDigits(frac) {
        var j :| 0 <= j < |frac| && !IsDigit(frac[j]);
        assert frac[j] == t[k + 1 + j];
        assert frac[j] in multiset(frac);
      } else {
        NoDotCount(frac);
        if whole == [] && frac == [] {
          assert t == ".";
          assert !HasDigit(t);
        } else if whole != [] {
          assert IsDigit(t[0]);
        } else {
          assert IsDigit(t[k + 1]);
        }
      }
    }
  }

  /** Reading "w.f" for digit strings w and f gives w + f/10^|f|. */
  lemma {:induction false} ParseDecimalValue(w: string, f: string)
    requires AllDigits(w) && AllDigits(f) && (w != [] || f != [])
    ensures forall i :: 0 <= i < |w + "." + f| ==> IsDecimalChar((w + "." + f)[i])
    ensures ParseDecimal(w + "." + f) == Some(DecimalValue(w, f))
  {
    var t := w + "." + f;
    assert forall i :: 0 <= i < |t| ==> IsDecimalChar(t[i]) by {
      forall i | 0 <= i < |t| ensures IsDecimalChar(t[i]) {
        if i < |w| { assert t[i] == w[i]; } else if i > |w| { assert t[i] == f[i - |w| - 1]; }
      }
    }
    DotIndexAt(w, f);
    assert t[..|w|] == w;
    assert t[|w| + 1..] == f;
  }

  lemma {:induction false} DotIndexAt(w: string, f: string)
    requires AllDigits(w)
    ensures DotIndex(w + "." + f) == |w|
    decreases |w|
  {
    if w != [] {
      assert (w + "." + f)[1..] == w[1..] + "." + f;
      DotIndexAt(w[1..], f);
    }
  }
  /** Stripping distributes over concatenation. */
  lemma {:induction false} DigitsOfAppend(a: string, b: string)
    ensures DigitsOf(a + b) == DigitsOf(a) + DigitsOf(b)
    decreases |a|
  {
    if a != [] {
      assert (a + b)[1..] == a[1..] + b;
      DigitsOfAppend(a[1..], b);
    } else {
      assert a + b == b;
    }
  }

  lemma {:induction false} DigitsOfNone(s: string)
    requires forall i :: 0 <= i < |s| ==> !IsDigit(s[i])
    ensures DigitsOf(s) == []
  {
    DigitsOfEmpty(s);
  }

  lemma {:induction false} DigitsOfAll(s: string)
    requires AllDigits(s)
    ensures DigitsOf(s) == s
    decreases |s|
  {
    if s != [] {
      DigitsOfAll(s[1..]);
      assert s == [s[0]] + s[1..];
    }
  }

  /** The digits of the price text "€ 250.000" (used by both price readers' examples). */
  lemma EuroDigits()
    ensures DigitsOf("€ 250.000") == "250000"
  {
    DigitsOfCons('0', "");
    DigitsOfCons('0', "0");
    DigitsOfCons('0', "00");
    DigitsOfCons('.', "000");
    DigitsOfCons('0', ".000");
    DigitsOfCons('5', "0.000");
    DigitsOfCons('2', "50.000");
    DigitsOfCons(' ', "250.000");
    DigitsOfCons('€', " 250.000");
  }

  lemma DigitsOfCons(c: char, s: string)
    ensures DigitsOf([c] + s) == (if IsDigit(c) then [c] else []) + DigitsOf(s)
  {
    assert ([c] + s)[1..] == s;
  }

  lemma EuroValue()
    ensures DigitsValue("250000") == 250000
  {
    assert "250000"[..5] == "25000";
    assert "25000"[..4] == "2500";
    assert "2500"[..3] == "250";
    assert "250"[..2] == "25";
    assert "25"[..1] == "2";
  }

}
