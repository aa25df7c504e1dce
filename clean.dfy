/** The two tolerant number readers of the Immoweb JSON adapter, `_clean_int` and
    `_clean_float` (sites/immoweb.py). Neither raises: absence is `None`. Python
    floats are read as exact reals. */
module Clean {
  import opened Common
  import opened JsonModel

  /** `int(f)` on a float: truncation toward zero. */
  function TruncToZero(f: real): (r: int)
    ensures -1.0 < f - r as real < 1.0
    ensures f >= 0.0 ==> 0 <= r && r as real <= f
    ensures f < 0.0 ==> r <= 0 && f <= r as real
  {
    if f >= 0.0 then f.Floor else -((-f).Floor)
  }

  /** `_clean_int`: None stays None, a number is truncated with `int()`, anything
      else is rendered with `str()` and stripped to its digits. */
  function CleanInt(x: Json): (r: Option<int>)
    ensures x == Null ==> r == None
    ensures x.Int? ==> r == Some(x.i)
    ensures x.Bool? ==> r == Some(if x.b then 1 else 0)
    ensures x.Float? ==> r.Some? && -1.0 < x.f - r.value as real < 1.0
    ensures x.Str? && r.Some? ==> r.value >= 0
  {
    match x
    case Null => None
    case Bool(b) => Some(if b then 1 else 0)
    case Int(i) => Some(i)
    case Float(f) => Some(TruncToZero(f))
    case _ => DigitsReading(PyStr(x))
  }

  /** On a text, `_clean_int` gives None exactly when the text holds no digit. */
  lemma CleanIntTextAbsent(s: string)
    ensures CleanInt(Str(s)) == None <==> forall i :: 0 <= i < |s| ==> !IsDigit(s[i])
  {
    DigitsOfEmpty(s);
  }

  /** Separators and glyphs around a number do not change what `_clean_int` reads:
      a text made of the rendering of n between two digit-free texts reads as n. */
  lemma {:induction false} CleanIntReadsRendering(pre: string, n: nat, post: string)
    requires forall i :: 0 <= i < |pre| ==> !IsDigit(pre[i])
    requires forall i :: 0 <= i < |post| ==> !IsDigit(post[i])
    ensures CleanInt(Str(pre + NatToString(n) + post)) == Some(n)
  {
    var s := NatToString(n);
    DigitsOfAppend(pre, s);
    DigitsOfAppend(pre + s, post);
    DigitsOfNone(pre);
    DigitsOfNone(post);
    DigitsOfAll(s);
    NatToStringRoundTrip(n);
    assert DigitsOf(pre + s) == s;
    assert DigitsOf(pre + s + post) == s;
    assert PyStr(Str(pre + s + post)) == pre + s + post;
    assert DigitsReading(pre + s + post) == Some(n);
  }

  /** The thousands-separated price "€ 250.000" reads as 250000. */
  lemma CleanIntEuroExample()
    ensures CleanInt(Str("€ 250.000")) == Some(250000)
  {
    EuroDigits();
    EuroValue();
  }

  // -------------------------------------------------------------- decimals

  /** `re.sub(r"[^\d.,]", "", s).replace(",", ".")`: keep digits, dots and commas,
      then turn every comma into a dot. */
  function DecimalChars(s: string): (r: string)
    ensures |r| <= |s|
    ensures forall i :: 0 <= i < |r| ==> IsDecimalChar(r[i])
  {
    if s == [] then []
    else
      (if IsDigit(s[0]) || s[0] == '.' then [s[0]] else if s[0] == ',' then ['.'] else [])
      + DecimalChars(s[1..])
  }

  /** One step of the filter: a digit or '.' is kept, ',' becomes '.', and any
      other character is dropped. */
  lemma DecimalCharsCons(c: char, s: string)
    ensures DecimalChars([c] + s) ==
      (if IsDigit(c) || c == '.' then [c] else if c == ',' then ['.'] else []) + DecimalChars(s)
  {
    assert ([c] + s)[1..] == s;
  }

  /** The filter keeps every digit of the text, in order, and turns each '.' and
      each ',' of it into one point. */
  lemma {:induction false} DecimalCharsKeeps(s: string)
    ensures DigitsOf(DecimalChars(s)) == DigitsOf(s)
    ensures multiset(DecimalChars(s))['.'] == multiset(s)['.'] + multiset(s)[',']
    decreases |s|
  {
    if s != [] {
      var c, rest := s[0], s[1..];
      assert s == [c] + rest;
      DecimalCharsKeeps(rest);
      DecimalCharsCons(c, rest);
      var head := if IsDigit(c) || c == '.' then [c] else if c == ',' then ['.'] else [];
      DigitsOfAppend(head, DecimalChars(rest));
      DigitsOfAppend([c], rest);
      assert DigitsOf(head) == DigitsOf([c]) by {
        assert [c][1..] == [];
        if head != [] { assert head[1..] == []; }
      }
      assert multiset(DecimalChars(s)) == multiset(head) + multiset(DecimalChars(rest));
      assert multiset(s) == multiset([c]) + multiset(rest);
    }
  }

  /** `_clean_float`: None stays None, a number is converted with `float()`, a text
      keeps its digits, dots and commas (commas read as dots) and is then read
      with `float()`, None when that would raise. */
  function CleanFloat(x: Json): (r: Option<real>)
    ensures x == Null ==> r == None
    ensures x.Int? ==> r == Some(x.i as real)
    ensures x.Float? ==> r == Some(x.f)
    ensures x.Str? ==> r.Some? ==> r.value >= 0.0
  {
    match x
    case Null => None
    case Bool(b) => Some(if b then 1.0 else 0.0)
    case Int(i) => Some(i as real)
    case Float(f) => Some(f)
    case _ => ParseDecimal(DecimalChars(PyStr(x)))
  }

  /** On a text, `_clean_float` succeeds exactly when the kept characters hold a
      digit and at most one separator. */
  lemma CleanFloatTextAccepts(s: string)
    ensures CleanFloat(Str(s)).Some?
        <==> HasDigit(DecimalChars(s)) && multiset(DecimalChars(s))['.'] <= 1
    ensures CleanFloat(Str(s)).Some?
        <==> HasDigit(s) && multiset(s)['.'] + multiset(s)[','] <= 1
  {
    ParseDecimalAccepts(DecimalChars(s));
    DecimalCharsKeeps(s);
    DigitsOfEmpty(s);
    DigitsOfEmpty(DecimalChars(s));
  }

  /** A decimal comma reads as a decimal point: "87,5 m²" is 87.5. */
  lemma CleanFloatCommaExample()
    ensures CleanFloat(Str("87,5 m²")) == Some(87.5)
  {
    CommaChars();
    DecimalPointExample();
  }

  lemma CommaChars()
    ensures DecimalChars("87,5 m²") == "87.5"
  {
    assert DecimalChars("²") == [];
    assert DecimalChars("m²") == [];
    assert DecimalChars(" m²") == [];
    assert DecimalChars("5 m²") == "5";
    assert DecimalChars(",5 m²") == ".5";
    assert DecimalChars("7,5 m²") == "7.5";
  }

  lemma DecimalPointExample()
    ensures ParseDecimal("87.5") == Some(87.5)
  {
    ParseDecimalValue("87", "5");
    assert "87" + "." + "5" == "87.5";
    assert DigitsValue("87") == 87;
    assert DigitsValue("5") == 5;
    assert DecimalValue("87", "5") == 87.5;
  }

  /** A thousands dot followed by a decimal comma makes two dots: `float` rejects it. */
  lemma CleanFloatTwoSeparatorsExample()
    ensures CleanFloat(Str("1.234,5")) == None
  {
    TwoSeparatorChars();
    TwoDotsRejected();
  }

  lemma TwoDotsRejected()
    ensures ParseDecimal("1.234.5") == None
  {
    var t := "1.234.5";
    assert DotIndex(t) == 1;
    assert t[2..] == "234.5";
    assert !IsDigit(t[2..][3]);
  }

  lemma TwoSeparatorChars()
    ensures DecimalChars("1.234,5") == "1.234.5"
  {
    TwoSeparatorTail();
    assert DecimalChars(".234,5") == ".234.5";
  }

  lemma TwoSeparatorTail()
    ensures DecimalChars("234,5") == "234.5"
  {
    assert DecimalChars("5") == "5";
    assert DecimalChars(",5") == ".5";
    assert DecimalChars("4,5") == "4.5";
    assert DecimalChars("34,5") == "34.5";
  }

  lemma {:induction false} DecimalCharsAppend(a: string, b: string)
    ensures DecimalChars(a + b) == DecimalChars(a) + DecimalChars(b)
    decreases |a|
  {
    if a != [] {
      assert (a + b)[1..] == a[1..] + b;
      DecimalCharsAppend(a[1..], b);
    } else {
      assert a + b == b;
    }
  }


}
