/** The text readers of the two HTML card scrapers (immoweb.py and zimmo.py hold
    textually identical copies): `parse_price`, `parse_area` and the bedroom
    pattern `(\d+)\s*(?:bed|slaap|chambre)` searched with re.IGNORECASE.
    Each regex search is modelled as a match function at one start position,
    tried left to right; a declarative description of "the pattern matches here"
    is proved to pick out exactly the same match. */
module CardText {
  import opened Common

  // ------------------------------------------------------------ parse_price

  /** `parse_price(txt)`: every non-digit removed, the rest read with `float()`. */
  function ParsePrice(txt: Option<string>): (r: Option<real>)
    ensures r.Some? ==> r.value >= 0.0 && r.value == r.value.Floor as real
  {
    if txt.None? || txt.value == "" then None
    else
      var nums := DigitsOf(txt.value);
      DigitsOfDigits(txt.value);
      if nums == [] then None else Some(DigitsValue(nums) as real)
  }

  /** No text, an empty text or a text without a digit gives None; otherwise the
      value of all the digits read as one number. */
  lemma ParsePriceReads(s: string)
    ensures ParsePrice(None) == None
    ensures ParsePrice(Some(s)) == None <==> forall i :: 0 <= i < |s| ==> !IsDigit(s[i])
    ensures ParsePrice(Some(s)) == None || ParsePrice(Some(s)) == Some(DigitsReading(s).value as real)
  {
    DigitsOfEmpty(s);
  }

  /** Separators and glyphs around a rendered number are ignored. */
  lemma ParsePriceReadsRendering(pre: string, n: nat, post: string)
    requires forall i :: 0 <= i < |pre| ==> !IsDigit(pre[i])
    requires forall i :: 0 <= i < |post| ==> !IsDigit(post[i])
    ensures ParsePrice(Some(pre + NatToString(n) + post)) == Some(n as real)
  {
    var s := NatToString(n);
    DigitsOfAppend(pre, s);
    DigitsOfAppend(pre + s, post);
    DigitsOfNone(pre);
    DigitsOfNone(post);
    DigitsOfAll(s);
    NatToStringRoundTrip(n);
    assert DigitsOf(pre + s + post) == s;
  }

  /** "€ 250.000" reads as 250000.0. */
  lemma ParsePriceEuroExample()
    ensures ParsePrice(Some("€ 250.000")) == Some(250000.0)
  {
    EuroDigits();
    EuroValue();
  }

  // --------------------------------------------------------------- runs

  predicate AllSpace(s: string) { forall q :: 0 <= q < |s| ==> IsSpace(s[q]) }

  /** The end of the longest run of digits starting at i (greedy `\d+`). */
  function DigitRun(t: string, i: nat): (j: nat)
    requires i <= |t|
    ensures i <= j <= |t| && AllDigits(t[i..j])
    ensures j == |t| || !IsDigit(t[j])
    ensures i < |t| && IsDigit(t[i]) ==> i < j
    decreases |t| - i
  {
    if i < |t| && IsDigit(t[i]) then
      var j := DigitRun(t, i + 1);
      assert t[i..j] == [t[i]] + t[i + 1..j];
      j
    else i
  }

  /** The end of the longest run of whitespace starting at i (greedy `\s*`). */
  function SpaceRun(t: string, i: nat): (j: nat)
    requires i <= |t|
    ensures i <= j <= |t| && AllSpace(t[i..j])
    ensures j == |t| || !IsSpace(t[j])
    decreases |t| - i
  {
    if i < |t| && IsSpace(t[i]) then
      var j := SpaceRun(t, i + 1);
      assert t[i..j] == [t[i]] + t[i + 1..j];
      j
    else i
  }

  /** A digit run is determined by where it stops. */
  lemma DigitRunEnd(t: string, i: nat, j: nat)
    requires i <= j <= |t| && AllDigits(t[i..j])
    requires j == |t| || !IsDigit(t[j])
    ensures DigitRun(t, i) == j
  {
  }

  lemma SpaceRunEnd(t: string, i: nat, j: nat)
    requires i <= j <= |t| && AllSpace(t[i..j])
    requires j == |t| || !IsSpace(t[j])
    ensures SpaceRun(t, i) == j
  {
  }

  // ------------------------------------------------------------ re.search

  /** `re.search` tries the start positions left to right and stops at the first
      one where the pattern matches: the first `Some` of the per-position results. */
  function FirstMatch<T>(ms: seq<Option<T>>): (r: Option<T>)
    ensures r.Some? ==> r in ms
  {
    if ms == [] then None
    else if ms[0].Some? then ms[0]
    else FirstMatch(ms[1..])
  }

  lemma {:induction false} FirstMatchFinds<T>(ms: seq<Option<T>>)
    ensures FirstMatch(ms).Some? ==>
      exists i :: 0 <= i < |ms| && ms[i] == FirstMatch(ms) &&
        (forall i' :: 0 <= i' < i ==> ms[i'].None?)
    ensures FirstMatch(ms).None? ==> forall i :: 0 <= i < |ms| ==> ms[i].None?
    decreases |ms|
  {
    if ms != [] && ms[0].None? {
      FirstMatchFinds(ms[1..]);
      if FirstMatch(ms).Some? {
        var i :| 0 <= i < |ms[1..]| && ms[1..][i] == FirstMatch(ms) &&
          (forall i' :: 0 <= i' < i ==> ms[1..][i'].None?);
        assert ms[i + 1] == FirstMatch(ms);
      }
    }
  }

  lemma {:induction false} FirstMatchLeftmost<T>(ms: seq<Option<T>>, i: nat)
    requires i < |ms| && ms[i].Some?
    requires forall i' :: 0 <= i' < i ==> ms[i'].None?
    ensures FirstMatch(ms) == ms[i]
    decreases i
  {
    if i > 0 {
      FirstMatchLeftmost(ms[1..], i - 1);
    }
  }

  // ------------------------------------------------------------ parse_area

  datatype Fraction = NoFraction | Fraction(sep: char, digits: string)

  /** Group 1 of `(\d+(?:[.,]\d+)?)\s*m`: a whole part and an optional fraction. */
  datatype AreaNumber = AreaNumber(whole: string, fraction: Fraction)

  function Group(n: AreaNumber): string
  {
    match n.fraction
    case NoFraction => n.whole
    case Fraction(sep, digits) => n.whole + [sep] + digits
  }

  predicate WellFormed(n: AreaNumber)
  {
    |n.whole| >= 1 && AllDigits(n.whole) &&
    (n.fraction.Fraction? ==>
      (n.fraction.sep == '.' || n.fraction.sep == ',') &&
      |n.fraction.digits| >= 1 && AllDigits(n.fraction.digits))
  }

  /** `float(group.replace(",", "."))` */
  function AreaValue(n: AreaNumber): real
    requires WellFormed(n)
  {
    if n.fraction.NoFraction? then DigitsValue(n.whole) as real
    else DecimalValue(n.whole, n.fraction.digits)
  }

  /** The pattern matches at i with this group and sp whitespace characters before the 'm'. */
  predicate AreaPatternAt(t: string, i: nat, n: AreaNumber, sp: nat)
  {
    var e := i + |Group(n)|;
    WellFormed(n) && e + sp < |t| && t[i..e] == Group(n) &&
    AllSpace(t[e..e + sp]) && t[e + sp] == 'm'
  }

  /** Where the number ends once the whole part ends at j: after the fraction
      digits when a separator followed by a digit comes next, else at j. */
  function NumberEnd(t: string, j: nat): (e: nat)
    requires j <= |t|
    ensures j <= e <= |t|
  {
    if j + 1 < |t| && (t[j] == '.' || t[j] == ',') && IsDigit(t[j + 1]) then DigitRun(t, j + 1) else j
  }

  /** The match at one start position: greedy digits, a fraction only when a
      separator is followed by a digit, greedy whitespace, then 'm'. */
  function AreaMatchAt(t: string, i: nat): (r: Option<AreaNumber>)
    requires i <= |t|
    ensures r.Some? ==> WellFormed(r.value)
  {
    var j := DigitRun(t, i);
    var e := NumberEnd(t, j);
    var k := SpaceRun(t, e);
    if j == i || k == |t| || t[k] != 'm' then None
    else Some(AreaNumber(t[i..j], if e == j then NoFraction else Fraction(t[j], t[j + 1..e])))
  }

  /** The whitespace the match function skips between the number and the 'm'. */
  function AreaSpaces(t: string, i: nat): nat
    requires i <= |t|
  {
    var e := NumberEnd(t, DigitRun(t, i));
    SpaceRun(t, e) - e
  }

  /** What the match function finds is a match of the pattern. */
  lemma AreaMatchSound(t: string, i: nat)
    requires i <= |t| && AreaMatchAt(t, i).Some?
    ensures AreaPatternAt(t, i, AreaMatchAt(t, i).value, AreaSpaces(t, i))
  {
    var j := DigitRun(t, i);
    var e := NumberEnd(t, j);
    var k := SpaceRun(t, e);
    var n := AreaNumber(t[i..j], if e == j then NoFraction else Fraction(t[j], t[j + 1..e]));
    assert AreaMatchAt(t, i) == Some(n);
    GroupIsSlice(t, i, j, e, n);
    assert AreaSpaces(t, i) == k - e;
  }

  /** The group of a match is the text from its start to the end of the number. */
  lemma GroupIsSlice(t: string, i: nat, j: nat, e: nat, n: AreaNumber)
    requires i <= j <= e <= |t|
    requires n == AreaNumber(t[i..j], if e == j then NoFraction else Fraction(t[j], t[j + 1..e]))
    ensures Group(n) == t[i..e]
  {
    if e != j {
      assert t[i..e] == t[i..j] + [t[j]] + t[j + 1..e];
    }
  }

  lemma SplitGroup(t: string, i: nat, w: string, sep: char, f: string)
    requires i + |w| + 1 + |f| <= |t| && t[i..i + |w| + 1 + |f|] == w + [sep] + f
    ensures t[i..i + |w|] == w && t[i + |w|] == sep && t[i + |w| + 1..i + |w| + 1 + |f|] == f
  {
    var e := i + |w| + 1 + |f|;
    assert t[i..i + |w|] == t[i..e][..|w|];
    assert t[i + |w|] == t[i..e][|w|];
    assert t[i + |w| + 1..e] == t[i..e][|w| + 1..];
  }

  /** The character right after the group is whitespace or the 'm': no digit, no separator. */
  lemma AfterGroup(t: string, i: nat, n: AreaNumber, sp: nat)
    requires AreaPatternAt(t, i, n, sp)
    ensures var e := i + |Group(n)|; e < |t| && !IsDigit(t[e]) && t[e] != '.' && t[e] != ','
    ensures SpaceRun(t, i + |Group(n)|) == i + |Group(n)| + sp
  {
    var e := i + |Group(n)|;
    if sp > 0 {
      assert t[e] == t[e..e + sp][0];
    }
    SpaceRunEnd(t, e, e + sp);
  }

  /** Any match of the pattern at i is the one the match function finds: at a
      given start the group is unique, so backtracking cannot pick another. */
  lemma AreaMatchComplete(t: string, i: nat, n: AreaNumber, sp: nat)
    requires AreaPatternAt(t, i, n, sp)
    ensures AreaMatchAt(t, i) == Some(n)
  {
    var j := i + |n.whole|;
    var e := i + |Group(n)|;
    AfterGroup(t, i, n, sp);
    NumberOfGroup(t, i, n, j, e);
    var fr := if e == j then NoFraction else Fraction(t[j], t[j + 1..e]);
    assert n == AreaNumber(t[i..j], fr);
    MatchAtOf(t, i, j, e, e + sp, n);
  }

  /** The match function's result, given where its runs end. */
  lemma MatchAtOf(t: string, i: nat, j: nat, e: nat, k: nat, n: AreaNumber)
    requires i < j <= e <= k < |t| && t[k] == 'm'
    requires DigitRun(t, i) == j && NumberEnd(t, j) == e && SpaceRun(t, e) == k
    requires n == AreaNumber(t[i..j], if e == j then NoFraction else Fraction(t[j], t[j + 1..e]))
    ensures AreaMatchAt(t, i) == Some(n)
  {
  }

  /** Where the group of a pattern match sits, the greedy digit run and the
      number end recover its whole part and its fraction. */
  lemma NumberOfGroup(t: string, i: nat, n: AreaNumber, j: nat, e: nat)
    requires WellFormed(n) && j == i + |n.whole| && e == i + |Group(n)|
    requires e < |t| && t[i..e] == Group(n)
    requires !IsDigit(t[e]) && t[e] != '.' && t[e] != ','
    ensures DigitRun(t, i) == j && NumberEnd(t, j) == e && t[i..j] == n.whole
    ensures n.fraction.NoFraction? ==> e == j
    ensures n.fraction.Fraction? ==> e > j && t[j] == n.fraction.sep && t[j + 1..e] == n.fraction.digits
  {
    match n.fraction {
      case NoFraction =>
        DigitRunEnd(t, i, j);
      case Fraction(sep, f) =>
        NumberOfFraction(t, i, n.whole, sep, f);
    }
  }

  lemma NumberOfFraction(t: string, i: nat, w: string, sep: char, f: string)
    requires |w| >= 1 && AllDigits(w) && (sep == '.' || sep == ',') && |f| >= 1 && AllDigits(f)
    requires i + |w| + 1 + |f| < |t| && t[i..i + |w| + 1 + |f|] == w + [sep] + f
    requires !IsDigit(t[i + |w| + 1 + |f|])
    ensures DigitRun(t, i) == i + |w| && NumberEnd(t, i + |w|) == i + |w| + 1 + |f|
    ensures t[i..i + |w|] == w && t[i + |w|] == sep && t[i + |w| + 1..i + |w| + 1 + |f|] == f
  {
    var j := i + |w|;
    var e := j + 1 + |f|;
    SplitGroup(t, i, w, sep, f);
    DigitRunEnd(t, i, j);
    assert t[j + 1] == t[j + 1..e][0];
    DigitRunEnd(t, j + 1, e);
  }

  /** The match at every start position of the text. */
  function AreaMatches(t: string): (ms: seq<Option<AreaNumber>>)
    ensures |ms| == |t| && forall i :: 0 <= i < |t| ==> ms[i] == AreaMatchAt(t, i)
    ensures forall x :: x in ms && x.Some? ==> WellFormed(x.value)
  {
    seq(|t|, i requires 0 <= i < |t| => AreaMatchAt(t, i))
  }

  /** `parse_area(txt)`: the lower-cased text is searched; None when nothing matches. */
  function ParseArea(txt: string): (r: Option<real>)
    ensures r.Some? ==> r.value >= 0.0
  {
    if txt == "" then None
    else
      var m := FirstMatch(AreaMatches(LowerStr(txt)));
      if m.None? then None else Some(AreaValue(m.value))
  }

  /** The number is the one at the leftmost match of the pattern in the lower-cased text. */
  lemma ParseAreaLeftmost(txt: string, i: nat, n: AreaNumber, sp: nat)
    requires AreaPatternAt(LowerStr(txt), i, n, sp)
    requires forall i': nat, n', sp': nat :: i' < i ==> !AreaPatternAt(LowerStr(txt), i', n', sp')
    ensures ParseArea(txt) == Some(AreaValue(n))
  {
    var t := LowerStr(txt);
    var ms := AreaMatches(t);
    AreaMatchComplete(t, i, n, sp);
    forall i' | 0 <= i' < i ensures ms[i'].None? {
      if AreaMatchAt(t, i').Some? {
        AreaMatchSound(t, i');
      }
    }
    FirstMatchLeftmost(ms, i);
  }

  /** Where the match function finds nothing, the pattern does not match. */
  lemma NoAreaPatternBefore(t: string, i: nat)
    requires i <= |t|
    requires forall i' :: 0 <= i' < i ==> AreaMatchAt(t, i').None?
    ensures forall i': nat, n', sp': nat :: i' < i ==> !AreaPatternAt(t, i', n', sp')
  {
    forall i': nat, n', sp': nat | i' < i ensures !AreaPatternAt(t, i', n', sp') {
      if AreaPatternAt(t, i', n', sp') {
        AreaMatchComplete(t, i', n', sp');
      }
    }
  }

  /** Conversely, a number returned comes from the leftmost match. */
  lemma ParseAreaSound(txt: string)
    requires ParseArea(txt).Some?
    ensures exists i: nat, n, sp: nat ::
      (AreaPatternAt(LowerStr(txt), i, n, sp) && ParseArea(txt) == Some(AreaValue(n)) &&
       forall i': nat, n', sp': nat :: i' < i ==> !AreaPatternAt(LowerStr(txt), i', n', sp'))
  {
    var t := LowerStr(txt);
    var ms := AreaMatches(t);
    FirstMatchFinds(ms);
    var i :| 0 <= i < |ms| && ms[i] == FirstMatch(ms) && (forall i' :: 0 <= i' < i ==> ms[i'].None?);
    var n := AreaMatchAt(t, i).value;
    AreaMatchSound(t, i);
    NoAreaPatternBefore(t, i);
    assert ParseArea(txt) == Some(AreaValue(n));
    LeftmostAreaExists(txt, i, n, AreaSpaces(t, i));
  }

  lemma LeftmostAreaExists(txt: string, i: nat, n: AreaNumber, sp: nat)
    requires AreaPatternAt(LowerStr(txt), i, n, sp) && ParseArea(txt) == Some(AreaValue(n))
    requires forall i': nat, n', sp': nat :: i' < i ==> !AreaPatternAt(LowerStr(txt), i', n', sp')
    ensures exists i: nat, n, sp: nat ::
      (AreaPatternAt(LowerStr(txt), i, n, sp) && ParseArea(txt) == Some(AreaValue(n)) &&
       forall i': nat, n', sp': nat :: i' < i ==> !AreaPatternAt(LowerStr(txt), i', n', sp'))
  {
  }

  /** None exactly when the pattern matches nowhere in the lower-cased text. */
  lemma ParseAreaNone(txt: string)
    ensures ParseArea(txt) == None <==>
      forall i: nat, n, sp: nat :: !AreaPatternAt(LowerStr(txt), i, n, sp)
  {
    var t := LowerStr(txt);
    if ParseArea(txt) == None {
      FirstMatchFinds(AreaMatches(t));
      forall i: nat, n, sp: nat ensures !AreaPatternAt(t, i, n, sp) {
        if AreaPatternAt(t, i, n, sp) {
          AreaMatchComplete(t, i, n, sp);
        }
      }
    } else {
      ParseAreaSound(txt);
    }
  }

  /** The value is what `float()` reads from the group once its comma is a dot. */
  lemma AreaValueIsFloat(n: AreaNumber)
    requires WellFormed(n)
    ensures var dotted := if n.fraction.NoFraction? then n.whole else n.whole + "." + n.fraction.digits;
      ParseDecimal(dotted) == Some(AreaValue(n))
  {
    if n.fraction.NoFraction? {
      var k := DotIndex(n.whole);
      assert n.whole[..k] == n.whole;
    } else {
      ParseDecimalValue(n.whole, n.fraction.digits);
    }
  }

  // ------------------------------------------------------------- bedrooms

  /** One character of the text against a lower-case keyword letter under
      re.IGNORECASE: the letter itself, its ASCII capital, and for 's' also
      U+017F (LATIN SMALL LETTER LONG S), which Python folds to 's'. */
  predicate CharMatchesI(c: char, k: char)
  {
    c == k || ('a' <= k <= 'z' && c as int == k as int - 32) || (k == 's' && c == '\U{017F}')
  }

  predicate KeywordAt(t: string, k: nat, kw: string)
  {
    k + |kw| <= |t| && forall q :: 0 <= q < |kw| ==> CharMatchesI(t[k + q], kw[q])
  }

  /** `(?:bed|slaap|chambre)` at k. */
  predicate BedKeywordAt(t: string, k: nat)
  {
    KeywordAt(t, k, "bed") || KeywordAt(t, k, "slaap") || KeywordAt(t, k, "chambre")
  }

  /** The pattern matches at i with these digits and sp whitespace characters. */
  predicate BedPatternAt(t: string, i: nat, d: string, sp: nat)
  {
    var e := i + |d|;
    |d| >= 1 && AllDigits(d) && e + sp <= |t| && t[i..e] == d &&
    AllSpace(t[e..e + sp]) && BedKeywordAt(t, e + sp)
  }

  /** A keyword starts with one of b, s or c in either case (or U+017F), followed
      by e, l or h: in particular neither a digit nor whitespace. */
  lemma KeywordStart(t: string, k: nat)
    requires BedKeywordAt(t, k)
    ensures k + 3 <= |t| && !IsDigit(t[k]) && !IsSpace(t[k])
    ensures (CharMatchesI(t[k], 'b') && CharMatchesI(t[k + 1], 'e')) ||
            (CharMatchesI(t[k], 's') && CharMatchesI(t[k + 1], 'l')) ||
            (CharMatchesI(t[k], 'c') && CharMatchesI(t[k + 1], 'h'))
  {
    if KeywordAt(t, k, "bed") {
      assert CharMatchesI(t[k + 0], "bed"[0]) && CharMatchesI(t[k + 1], "bed"[1]);
    } else if KeywordAt(t, k, "slaap") {
      assert CharMatchesI(t[k + 0], "slaap"[0]) && CharMatchesI(t[k + 1], "slaap"[1]);
    } else {
      assert CharMatchesI(t[k + 0], "chambre"[0]) && CharMatchesI(t[k + 1], "chambre"[1]);
    }
  }

  /** The digits of the match at one start position. */
  function BedMatchAt(t: string, i: nat): (r: Option<string>)
    requires i <= |t|
    ensures r.Some? ==> |r.value| >= 1 && AllDigits(r.value)
  {
    var j := DigitRun(t, i);
    if j == i || !BedKeywordAt(t, SpaceRun(t, j)) then None else Some(t[i..j])
  }

  lemma BedMatchSound(t: string, i: nat)
    requires i <= |t| && BedMatchAt(t, i).Some?
    ensures BedPatternAt(t, i, BedMatchAt(t, i).value, SpaceRun(t, DigitRun(t, i)) - DigitRun(t, i))
  {
  }

  /** Any match of the pattern at i is the one the match function finds. */
  lemma BedMatchComplete(t: string, i: nat, d: string, sp: nat)
    requires BedPatternAt(t, i, d, sp)
    ensures BedMatchAt(t, i) == Some(d)
  {
    var e := i + |d|;
    KeywordStart(t, e + sp);
    if sp > 0 {
      assert t[e] == t[e..e + sp][0];
    }
    DigitRunEnd(t, i, e);
    SpaceRunEnd(t, e, e + sp);
  }

  function BedMatches(t: string): (ms: seq<Option<string>>)
    ensures |ms| == |t| && forall i :: 0 <= i < |t| ==> ms[i] == BedMatchAt(t, i)
    ensures forall x :: x in ms && x.Some? ==> AllDigits(x.value)
  {
    seq(|t|, i requires 0 <= i < |t| => BedMatchAt(t, i))
  }

  /** `beds = int(m.group(1)) if m else None`, on the text as it is (not lower-cased). */
  function ParseBedrooms(txt: string): (r: Option<int>)
    ensures r.Some? ==> r.value >= 0
  {
    var m := FirstMatch(BedMatches(txt));
    if m.None? then None else Some(DigitsValue(m.value))
  }

  /** The count is the one at the leftmost match of the pattern. */
  lemma ParseBedroomsLeftmost(txt: string, i: nat, d: string, sp: nat)
    requires BedPatternAt(txt, i, d, sp)
    requires forall i': nat, d', sp': nat :: i' < i ==> !BedPatternAt(txt, i', d', sp')
    ensures ParseBedrooms(txt) == Some(DigitsValue(d))
  {
    var ms := BedMatches(txt);
    BedMatchComplete(txt, i, d, sp);
    forall i' | 0 <= i' < i ensures ms[i'].None? {
      if BedMatchAt(txt, i').Some? {
        BedMatchSound(txt, i');
      }
    }
    FirstMatchLeftmost(ms, i);
  }

  lemma NoBedPatternBefore(t: string, i: nat)
    requires i <= |t|
    requires forall i' :: 0 <= i' < i ==> BedMatchAt(t, i').None?
    ensures forall i': nat, d', sp': nat :: i' < i ==> !BedPatternAt(t, i', d', sp')
  {
    forall i': nat, d', sp': nat | i' < i ensures !BedPatternAt(t, i', d', sp') {
      if BedPatternAt(t, i', d', sp') {
        BedMatchComplete(t, i', d', sp');
      }
    }
  }

  /** Conversely, a count returned comes from the leftmost match. */
  lemma ParseBedroomsSound(txt: string)
    requires ParseBedrooms(txt).Some?
    ensures exists i: nat, d, sp: nat ::
      (BedPatternAt(txt, i, d, sp) && ParseBedrooms(txt) == Some(DigitsValue(d)) &&
       forall i': nat, d', sp': nat :: i' < i ==> !BedPatternAt(txt, i', d', sp'))
  {
    var ms := BedMatches(txt);
    FirstMatchFinds(ms);
    var i :| 0 <= i < |ms| && ms[i] == FirstMatch(ms) && (forall i' :: 0 <= i' < i ==> ms[i'].None?);
    BedMatchSound(txt, i);
    NoBedPatternBefore(txt, i);
  }

  /** None exactly when the pattern matches nowhere; in particular a text with no
      keyword at all gives None. */
  lemma ParseBedroomsNone(txt: string)
    ensures ParseBedrooms(txt) == None <==> forall i: nat, d, sp: nat :: !BedPatternAt(txt, i, d, sp)
    ensures (forall k: nat :: !BedKeywordAt(txt, k)) ==> ParseBedrooms(txt) == None
  {
    if ParseBedrooms(txt) == None {
      FirstMatchFinds(BedMatches(txt));
      forall i: nat, d, sp: nat ensures !BedPatternAt(txt, i, d, sp) {
        if BedPatternAt(txt, i, d, sp) {
          BedMatchComplete(txt, i, d, sp);
        }
      }
    } else {
      ParseBedroomsSound(txt);
    }
  }

  // --------------------------------------------------------------- examples

  /** A text without upper-case letters is its own lower-case form. */
  lemma LowerNoUpper(s: string)
    requires forall q :: 0 <= q < |s| ==> !IsUpper(s[q])
    ensures LowerStr(s) == s
  {
  }

  /** The detail text "3 bdr. · 120 m²" has nothing to lower-case. */
  lemma DetailLower()
    ensures LowerStr("3 bdr. · 120 m²") == "3 bdr. · 120 m²"
  {
    var t := "3 bdr. · 120 m²";
    forall q | 0 <= q < |t| ensures !IsUpper(t[q]) {
      if q == 0 {
      } else if q == 1 {
      } else if q == 2 {
      } else if q == 3 {
      } else if q == 4 {
      } else if q == 5 {
      } else if q == 6 {
      } else if q == 7 {
      } else if q == 8 {
      } else if q == 9 {
      } else if q == 10 {
      } else if q == 11 {
      } else if q == 12 {
      } else if q == 13 {
      } else if q == 14 {
      }
    }
    LowerNoUpper(t);
  }

  /** In it, the pattern matches at index 9 ("120 m"). */
  lemma DetailMatchAt9()
    ensures AreaPatternAt("3 bdr. · 120 m²", 9, AreaNumber("120", NoFraction), 1)
  {
    var t := "3 bdr. · 120 m²";
    assert t[9..12] == "120" && t[12..13] == " " && t[13] == 'm';
  }

  /** At index 0 the digit "3" is followed by " b", not by an 'm'. */
  lemma DetailNoMatchAt0()
    ensures AreaMatchAt("3 bdr. · 120 m²", 0).None?
  {
    var t := "3 bdr. · 120 m²";
    assert t[0..1] == "3" && t[1..2] == " ";
    DigitRunEnd(t, 0, 1);
    SpaceRunEnd(t, 1, 2);
  }

  /** Indices 1 to 8 hold no digit. */
  lemma DetailNoDigitsBefore9()
    ensures forall q :: 1 <= q < 9 ==> !IsDigit("3 bdr. · 120 m²"[q])
  {
    var t := "3 bdr. · 120 m²";
    forall q | 1 <= q < 9 ensures !IsDigit(t[q]) {
      if q == 0 {
      } else if q == 1 {
      } else if q == 2 {
      } else if q == 3 {
      } else if q == 4 {
      } else if q == 5 {
      } else if q == 6 {
      } else if q == 7 {
      } else if q == 8 {
      }
    }
  }

  /** No match starts before index 9. */
  lemma DetailNothingBefore9()
    ensures forall i': nat, n', sp': nat :: i' < 9 ==> !AreaPatternAt("3 bdr. · 120 m²", i', n', sp')
  {
    var t := "3 bdr. · 120 m²";
    DetailNoMatchAt0();
    DetailNoDigitsBefore9();
    forall i': nat, n', sp': nat | i' < 9 ensures !AreaPatternAt(t, i', n', sp') {
      if AreaPatternAt(t, i', n', sp') {
        AreaMatchComplete(t, i', n', sp');
      }
    }
  }

  lemma Value120()
    ensures AreaValue(AreaNumber("120", NoFraction)) == 120.0
  {
    assert "120"[..2] == "12" && "12"[..1] == "1";
    assert DigitsValue("1") == 1;
    assert DigitsValue("12") == 12;
    assert DigitsValue("120") == 120;
  }

  /** Its area is 120.0: the "3" before "bdr." is not followed by an 'm'. */
  lemma DetailAreaExample()
    ensures ParseArea("3 bdr. · 120 m²") == Some(120.0)
  {
    DetailAreaNumber();
    Value120();
  }

  lemma DetailAreaNumber()
    ensures ParseArea("3 bdr. · 120 m²") == Some(AreaValue(AreaNumber("120", NoFraction)))
  {
    var t := "3 bdr. · 120 m²";
    var n := AreaNumber("120", NoFraction);
    DetailLower();
    DetailMatchAt9();
    DetailNothingBefore9();
    assert AreaPatternAt(LowerStr(t), 9, n, 1);
    ParseAreaLeftmost(t, 9, n, 1);
  }

  /** No keyword starts anywhere in it: its only 'b' is followed by 'd'. */
  lemma DetailNoKeyword()
    ensures forall k: nat :: !BedKeywordAt("3 bdr. · 120 m²", k)
  {
    var t := "3 bdr. · 120 m²";
    forall k: nat ensures !BedKeywordAt(t, k) {
      if BedKeywordAt(t, k) {
        KeywordStart(t, k);
        if k == 0 {
        } else if k == 1 {
        } else if k == 2 {
        } else if k == 3 {
        } else if k == 4 {
        } else if k == 5 {
        } else if k == 6 {
        } else if k == 7 {
        } else if k == 8 {
        } else if k == 9 {
        } else if k == 10 {
        } else if k == 11 {
        } else if k == 12 {
        }
      }
    }
  }

  /** Its bedroom count is None: "bdr" is not one of the keywords. */
  lemma DetailBedroomsExample()
    ensures ParseBedrooms("3 bdr. · 120 m²") == None
  {
    DetailNoKeyword();
    ParseBedroomsNone("3 bdr. · 120 m²");
  }

  lemma SlaapAt2()
    ensures KeywordAt("2 Slaapkamers", 2, "slaap")
  {
    var t := "2 Slaapkamers";
    forall q | 0 <= q < 5 ensures CharMatchesI(t[2 + q], "slaap"[q]) {
      if q == 0 {
      } else if q == 1 {
      } else if q == 2 {
      } else if q == 3 {
      } else if q == 4 {
      }
    }
  }

  lemma CapitalPattern()
    ensures BedPatternAt("2 Slaapkamers", 0, "2", 1)
  {
    var t := "2 Slaapkamers";
    SlaapAt2();
    assert t[0..1] == "2" && t[1..2] == " ";
  }

  /** Keywords match in any case: "2 Slaapkamers" has 2 bedrooms. */
  lemma CapitalKeywordExample()
    ensures ParseBedrooms("2 Slaapkamers") == Some(2)
  {
    CapitalPattern();
    ParseBedroomsLeftmost("2 Slaapkamers", 0, "2", 1);
    Value2();
  }

  lemma Value2()
    ensures DigitsValue("2") == 2
  {
    assert "2"[..0] == "";
  }
}
