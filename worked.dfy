/**
 * What the extractor makes of the shapes of description the coaching sheet
 * uses. A plain distance, a run type and a distance in whole meters are stated
 * for every literal of their shape; a multiplication and two segments joined
 * by '+' are shown on worked descriptions ("3 x 2k", "400m + 3k").
 */
module Worked {
  import opened Options
  import opened Text
  import opened Regexes
  import opened Scan
  import opened Patterns
  import opened Extraction

  // ------------------------------------------------- literals in place

  /** A decimal literal at `i`, not followed by a digit or a point, is the number read there. */
  lemma NumberOfLiteral(s: string, i: nat, lit: string)
    requires IsDecimal(lit) && i + |lit| <= |s| && s[i..i + |lit|] == lit
    requires i + |lit| < |s| ==> !IsDigit(s[i + |lit|]) && s[i + |lit|] != '.'
    ensures Number(s, i) == |lit|
  {
    var pre, u := s[..i], s[i..];
    assert s == pre + u;
    NumberShift(pre, u, 0);
    if i + |lit| < |s| {
      var tail := s[i + |lit|..];
      assert u == lit + tail;
      NumberConcat(lit, tail, 0);
    } else {
      assert u == lit;
    }
  }

  lemma ValueOfLiteral(s: string, i: nat, lit: string)
    requires i + |lit| <= |s| && s[i..i + |lit|] == lit
    ensures DecimalAt(s, i, i + |lit|) == DecimalValue(lit)
  {
    DecimalAtSlice(s, i, i + |lit|);
  }

  /** A digit string at `i`, not followed by a digit, is the digit run there, with its value. */
  lemma DigitsOfLiteral(s: string, i: nat, ds: string)
    requires AllDigits(ds) && i + |ds| <= |s| && s[i..i + |ds|] == ds
    requires i + |ds| < |s| ==> !IsDigit(s[i + |ds|])
    ensures Digits(s, i) == |ds| && NatAt(s, i, i + |ds|) == NatValue(ds)
  {
    forall k | i <= k < i + |ds| ensures IsDigit(s[k]) {
      assert s[k] == ds[k - i];
    }
    DigitsExact(s, i, |ds|);
    NatAtSlice(s, i, i + |ds|);
  }

  // ------------------------------------------------------------ matches

  /** Plain matches a number directly followed by 'k'. */
  lemma PlainMatch(s: string, i: nat, n: nat)
    requires i + n < |s| && Number(s, i) == n > 0 && SameLetter(s[i + n], 'k')
    ensures PlainAt(s, i) == Some(Token(n + 1, DecimalAt(s, i, i + n)))
  {
    SpacesExact(s, i + n, 0);
  }

  /** Meters matches digits directly followed by a lone 'm'. */
  lemma MetersMatch(s: string, i: nat, n: nat)
    requires i + n < |s| && Digits(s, i) == n > 0 && SameLetter(s[i + n], 'm') && WordEnd(s, i + n + 1)
    ensures MetersAt(s, i) == Some(Token(n + 1, Kilometres(NatAt(s, i, i + n))))
  {
    SpacesExact(s, i + n, 0);
  }

  /** RunType matches a whole text made of a number, white space and a run-type keyword, and keeps the number. */
  lemma RunTypeMatch(s: string, n: nat, gap: nat, w: nat)
    requires |s| == n + gap + w && Number(s, 0) == n > 0 && Spaces(s, n) == gap && Keyword(s, n + gap) == w > 0
    ensures RunTypeAt(s, 0) == Some(Token(|s|, DecimalAt(s, 0, n)))
    ensures RunTypeText(s, 0) == s[..n] + "k"
  {
  }

  /** The multiplicand `\s*\(?<number>k` of Multiply, here without a parenthesis. */
  lemma MultiplicandMatch(s: string, b: nat, c: nat, n: nat, len: nat)
    requires b <= |s| && c == b + Spaces(s, b) && len == c - b + n + 1
    requires c + n < |s| && Number(s, c) == n > 0 && SameLetter(s[c + n], 'k')
    ensures MultiplicandAt(s, b) == Some(Token(len, DecimalAt(s, c, c + n)))
  {
    assert Opening(s, b) == c;
    PlainMatch(s, c, n);
  }

  // --------------------------------------------------- quiet characters

  /** A character that is no marker of any pattern: what rewritten text is made of. */
  predicate Quiet(c: char) {
    IsDigit(c) || c == '.' || c == 'k' || c == ' ' || c == '+'
  }

  predicate AllQuiet(s: string) {
    forall k :: 0 <= k < |s| ==> Quiet(s[k])
  }

  lemma QuietConcat(x: string, y: string)
    requires AllQuiet(x) && AllQuiet(y)
    ensures AllQuiet(x + y)
  {
    forall k | 0 <= k < |x + y| ensures Quiet((x + y)[k]) {
      if k >= |x| {
        assert (x + y)[k] == y[k - |x|];
      }
    }
  }

  /** A decimal literal and its unit are quiet and hold no '+'. */
  lemma QuietDecimal(lit: string)
    requires IsDecimal(lit)
    ensures AllQuiet(lit + "k") && '+' !in lit + "k"
  {
    DecimalChars(lit);
    var u := lit + "k";
    forall k | 0 <= k < |u| ensures Quiet(u[k]) && u[k] != '+' {
      if k < |lit| {
        assert u[k] == lit[k];
      }
    }
  }

  /** From `i` on, quiet text holds no meter, run type or times sign. */
  lemma QuietNoMarker(s: string, i: nat)
    requires forall j :: i <= j < |s| ==> Quiet(s[j])
    ensures NoMarkerFrom(Meters, s, i) && NoMarkerFrom(RunType, s, i) && NoMarkerFrom(Multiply, s, i)
  {
  }

  /** Quiet text is its own normal form. */
  lemma QuietNormal(s: string)
    requires AllQuiet(s)
    ensures Normalize(s) == s
  {
    QuietNoMarker(s, 0);
    NoMarkerNoMatch(Meters, s, 0);
    NoMarkerNoMatch(RunType, s, 0);
  }

  // ----------------------------------------------------------- segments

  /** Text without a '+' is one segment. */
  lemma OneSegment(s: string)
    requires '+' !in s
    ensures SegmentsKm(Split(s, '+')) == SegmentKm(s)
  {
    SplitWithoutSeparator(s, '+');
    assert [s][..0] == [];
  }

  /** Splitting at the only separator gives the text before it and the text after it. */
  lemma {:induction false} SplitAroundOne(a: string, b: string, sep: char)
    requires sep !in a && sep !in b
    ensures Split(a + [sep] + b, sep) == [a, b]
    decreases |a|
  {
    var s := a + [sep] + b;
    if a == [] {
      assert s == [sep] + b && s[1..] == b;
      SplitWithoutSeparator(b, sep);
    } else {
      assert s[1..] == a[1..] + [sep] + b;
      SplitAroundOne(a[1..], b, sep);
      assert [a[0]] + a[1..] == a;
    }
  }

  /** Two segments are worth the first and then the second. */
  lemma TwoSegments(a: string, b: string)
    ensures SegmentsKm([a, b]) == SegmentKm(a) + SegmentKm(b)
  {
    assert SegmentsKm([a]) == SegmentKm(a) by {
      assert [a][..0] == [];
    }
    assert [a, b][..1] == [a];
  }

  /**
   * A segment holding one plain distance, with no other digit and no times
   * sign, is worth that distance.
   */
  lemma PlainSegment(s: string, i: nat, n: nat)
    requires i + n < |s| && Number(s, i) == n > 0 && SameLetter(s[i + n], 'k')
    requires forall k :: 0 <= k < i ==> !IsDigit(s[k])
    requires forall k :: i + n < k < |s| ==> !IsDigit(s[k])
    requires NoMarkerFrom(Multiply, s, 0)
    ensures SegmentKm(s) == DecimalAt(s, i, i + n)
  {
    var t := Token(n + 1, DecimalAt(s, i, i + n));
    assert Lex(Plain)(s, i) == Some(t) by {
      PlainMatch(s, i, n);
      assert At(Plain, s, i) == Some(t);
    }
    assert Total(Lex(Plain), s, 0) == t.km by {
      OnlyMatch(Lex(Plain), s, i, t);
    }
    assert Exec(Lex(Multiply), s, 0).None? by {
      NoMarkerNoMatch(Multiply, s, 0);
    }
  }

  /** A plain distance "<lit>k" with nothing else is worth `lit`. */
  lemma PlainLiteralSegment(lit: string)
    requires IsDecimal(lit)
    ensures SegmentKm(lit + "k") == DecimalValue(lit)
  {
    var u := lit + "k";
    assert u[0..|lit|] == lit;
    assert Number(u, 0) == |lit| > 0 by {
      NumberOfLiteral(u, 0, lit);
    }
    assert NoMarkerFrom(Multiply, u, 0) by {
      QuietDecimal(lit);
      QuietNoMarker(u, 0);
    }
    assert DecimalAt(u, 0, |lit|) == DecimalValue(lit) by {
      ValueOfLiteral(u, 0, lit);
    }
    PlainSegment(u, 0, |lit|);
  }

  /** Text whose normal form is a single plain distance is worth that distance. */
  lemma PlainNormal(text: string, lit: string)
    requires IsDecimal(lit) && Normalize(text) == lit + "k"
    ensures TotalKm(text) == DecimalValue(lit)
  {
    QuietDecimal(lit);
    OneSegment(lit + "k");
    PlainLiteralSegment(lit);
  }

  // ------------------------------------------------------------- shapes

  /** A plain distance "<lit>k" is worth `lit`, rounded. */
  lemma PlainDistance(lit: string)
    requires IsDecimal(lit)
    ensures Distance(lit + "k") == Round1(DecimalValue(lit))
  {
    QuietDecimal(lit);
    QuietNormal(lit + "k");
    PlainNormal(lit + "k", lit);
  }

  /** A text made of digits and an 'm' is rewritten to the kilometres they name. */
  lemma MetersOnly(s: string, d: nat)
    requires d + 1 == |s| && Digits(s, 0) == d > 0 && SameLetter(s[d], 'm')
    ensures Replace(Lex(Meters), Rewrite(Meters), s, 0) == Thousandths(NatAt(s, 0, d)) + "k"
  {
    var t := Token(d + 1, Kilometres(NatAt(s, 0, d)));
    MetersMatch(s, 0, d);
    assert Lex(Meters)(s, 0) == Some(t) by {
      assert At(Meters, s, 0) == Some(t);
    }
    FirstMatchOnly(Lex(Meters), Rewrite(Meters), s, t);
    assert s[d + 1..] == [];
    assert Rewrite(Meters)(s, 0) == MetersText(s, 0);
  }

  /** The meter rewrite turns "<n>m" into the kilometres `String(n / 1000) + 'k'`. */
  lemma MetersRewrite(n: nat)
    ensures Replace(Lex(Meters), Rewrite(Meters), NatToString(n) + "m", 0) == Thousandths(n) + "k"
  {
    var ds := NatToString(n);
    var s := ds + "m";
    var d := |ds|;
    assert Digits(s, 0) == d && NatAt(s, 0, d) == n && s[d] == 'm' by {
      assert s[0..d] == ds;
      DigitsOfLiteral(s, 0, ds);
    }
    MetersOnly(s, d);
  }

  /** Quiet text holds no run type for the second rewrite to change. */
  lemma QuietRunType(s: string)
    requires AllQuiet(s)
    ensures Replace(Lex(RunType), Rewrite(RunType), s, 0) == s
  {
    QuietNoMarker(s, 0);
    NoMarkerNoMatch(RunType, s, 0);
  }

  /** "<n>m" is rewritten to the kilometres `String(n / 1000) + 'k'`. */
  lemma MetersNormal(n: nat)
    ensures Normalize(NatToString(n) + "m") == Thousandths(n) + "k"
  {
    MetersRewrite(n);
    QuietDecimal(Thousandths(n));
    QuietRunType(Thousandths(n) + "k");
  }

  /** Non-empty text is worth its total, rounded. */
  lemma DistanceOfTotal(s: string, x: real)
    requires s != "" && TotalKm(s) == x
    ensures Distance(s) == Round1(x)
  {
  }

  /** A distance in whole meters, "<n>m", is worth n / 1000 kilometres, rounded. */
  lemma IntegerMeters(n: nat)
    ensures Distance(NatToString(n) + "m") == Round1(Kilometres(n))
  {
    var s := NatToString(n) + "m";
    MetersNormal(n);
    PlainNormal(s, Thousandths(n));
    DistanceOfTotal(s, Kilometres(n));
  }

  /** The five run types of the sheet: easy, marathon pace, threshold, intervals, repetitions. */
  predicate RunTypeWord(kw: string) {
    kw == "Ez" || kw == "Mp" || kw == "Thr" || kw == "I" || kw == "R"
  }

  /** A run type at the end of the text is a whole keyword match. */
  lemma KeywordAtEnd(pre: string, kw: string)
    requires RunTypeWord(kw)
    ensures Keyword(pre + kw, |pre|) == |kw|
  {
    var s := pre + kw;
    var k := |pre|;
    assert forall j :: 0 <= j < |kw| ==> s[k + j] == kw[j];
  }

  /** The letters of a run type: none is a digit, a point or white space, and only the 'M' of "Mp" is an 'm'. */
  lemma RunTypeLetters(kw: string)
    requires RunTypeWord(kw)
    ensures |kw| > 0
    ensures forall j :: 0 <= j < |kw| ==> !IsDigit(kw[j]) && kw[j] != '.' && !IsSpace(kw[j])
    ensures forall j :: 0 <= j < |kw| && SameLetter(kw[j], 'm') ==> kw == "Mp" && j == 0
  {
  }

  /** In a number, white space and a run type, no 'm' ends a word. */
  lemma NoMeterUnit(lit: string, gap: string, kw: string)
    requires IsDecimal(lit) && AllSpaces(gap) && RunTypeWord(kw)
    ensures forall k :: 0 <= k <= |lit + gap + kw| ==> !MeterUnit(lit + gap + kw, k)
  {
    var s := lit + gap + kw;
    var p := |lit| + |gap|;
    DecimalChars(lit);
    RunTypeLetters(kw);
    forall k | 0 <= k <= |s| ensures !MeterUnit(s, k) {
      if k < |lit| {
        assert s[k] == lit[k];
      } else if k < p {
        assert s[k] == gap[k - |lit|];
      } else if k < |s| {
        assert s[k] == kw[k - p];
        if SameLetter(s[k], 'm') {
          assert k == p && kw == "Mp";
          assert s[k + 1] == kw[1] == 'p';
        }
      }
    }
  }

  /** ... so the text holds no meter distance. */
  lemma NoMeters(lit: string, gap: string, kw: string)
    requires IsDecimal(lit) && AllSpaces(gap) && RunTypeWord(kw)
    ensures forall j :: 0 <= j <= |lit + gap + kw| ==> Lex(Meters)(lit + gap + kw, j).None?
  {
    NoMeterUnit(lit, gap, kw);
    NoUnitNoMeters(lit + gap + kw);
  }

  /** Text in which no 'm' ends a word holds no meter distance. */
  lemma NoUnitNoMeters(s: string)
    requires forall k :: 0 <= k <= |s| ==> !MeterUnit(s, k)
    ensures forall j :: 0 <= j <= |s| ==> Lex(Meters)(s, j).None?
  {
    forall j | 0 <= j <= |s| ensures Lex(Meters)(s, j).None? {
      var d := Digits(s, j);
      assert !MeterUnit(s, j + d + Spaces(s, j + d));
      assert MetersAt(s, j).None?;
    }
  }

  /** The meter rewrite leaves a number, white space and a run type alone. */
  lemma RunTypeMeters(lit: string, gap: string, kw: string)
    requires IsDecimal(lit) && AllSpaces(gap) && RunTypeWord(kw)
    ensures Replace(Lex(Meters), Rewrite(Meters), lit + gap + kw, 0) == lit + gap + kw
  {
    var s := lit + gap + kw;
    NoMeters(lit, gap, kw);
    NoMatchFrom(Lex(Meters), Rewrite(Meters), s, 0);
    assert s[0..] == s;
  }

  /** The number of a run-type description is its literal ... */
  lemma RunTypeNumber(lit: string, gap: string, kw: string)
    requires IsDecimal(lit) && AllSpaces(gap) && RunTypeWord(kw)
    ensures Number(lit + gap + kw, 0) == |lit|
  {
    var s := lit + gap + kw;
    RunTypeLetters(kw);
    assert s[|lit| + |gap|] == kw[0];
    assert s[0..|lit|] == lit;
    NumberOfLiteral(s, 0, lit);
  }

  /** White space between two texts, the second not starting with white space, is one whole run. */
  lemma SpacesBetween(pre: string, gap: string, post: string)
    requires AllSpaces(gap) && |post| > 0 && !IsSpace(post[0])
    ensures Spaces(pre + gap + post, |pre|) == |gap|
  {
    var s := pre + gap + post;
    var n, g := |pre|, |gap|;
    assert s[n + g] == post[0];
    forall k | n <= k < n + g ensures IsSpace(s[k]) {
      assert s[k] == gap[k - n];
    }
    SpacesExact(s, n, g);
  }

  /** ... followed by its white space ... */
  lemma RunTypeGap(lit: string, gap: string, kw: string)
    requires AllSpaces(gap) && RunTypeWord(kw)
    ensures Spaces(lit + gap + kw, |lit|) == |gap|
  {
    assert |kw| > 0 && !IsSpace(kw[0]) by {
      RunTypeLetters(kw);
    }
    SpacesBetween(lit, gap, kw);
  }

  /** ... and then its keyword. */
  lemma RunTypeKeyword(lit: string, gap: string, kw: string)
    requires RunTypeWord(kw)
    ensures Keyword(lit + gap + kw, |lit| + |gap|) == |kw|
  {
    KeywordAtEnd(lit + gap, kw);
  }

  /** A number, white space and a run type are one whole RunType match, whose text is the number and 'k'. */
  lemma RunTypeWhole(lit: string, gap: string, kw: string)
    requires IsDecimal(lit) && AllSpaces(gap) && RunTypeWord(kw)
    ensures RunTypeAt(lit + gap + kw, 0) == Some(Token(|lit + gap + kw|, DecimalAt(lit + gap + kw, 0, |lit|)))
    ensures RunTypeText(lit + gap + kw, 0) == lit + "k"
  {
    var s := lit + gap + kw;
    var n := |lit|;
    RunTypeLetters(kw);
    RunTypeNumber(lit, gap, kw);
    RunTypeGap(lit, gap, kw);
    RunTypeKeyword(lit, gap, kw);
    RunTypeMatch(s, n, |gap|, |kw|);
    assert s[..n] == lit;
  }

  /** The RunType rewrite turns a number, white space and a run type into the number and 'k'. */
  lemma RunTypeRewrite(lit: string, gap: string, kw: string)
    requires IsDecimal(lit) && AllSpaces(gap) && RunTypeWord(kw)
    ensures Replace(Lex(RunType), Rewrite(RunType), lit + gap + kw, 0) == lit + "k"
  {
    var s := lit + gap + kw;
    RunTypeWhole(lit, gap, kw);
    RewriteWhole(RunType, s, Token(|s|, DecimalAt(s, 0, |lit|)));
  }

  /**
   * A run type, "<lit><white space><Ez|Mp|Thr|I|R>", is worth `lit` kilometres,
   * rounded, for every decimal literal and every run of white space.
   */
  lemma RunTypeDistance(lit: string, gap: string, kw: string)
    requires IsDecimal(lit) && AllSpaces(gap) && RunTypeWord(kw)
    ensures Distance(lit + gap + kw) == Round1(DecimalValue(lit))
  {
    var s := lit + gap + kw;
    assert Normalize(s) == lit + "k" by {
      RunTypeMeters(lit, gap, kw);
      RunTypeRewrite(lit, gap, kw);
    }
    PlainNormal(s, lit);
    assert s != "" && TotalKm(s) == DecimalValue(lit);
  }

  // ------------------------------------------------ worked descriptions

  // "13 Ez"
  /** "13 Ez" holds no meter distance. */
  lemma EzMeters()
    ensures Replace(Lex(Meters), Rewrite(Meters), "13 Ez", 0) == "13 Ez"
  {
    var s := "13 Ez";
    assert NoMarkerFrom(Meters, s, 0) by {
      forall j | 0 <= j < |s| ensures !Marker(Meters, s[j]) {
        assert j == 0 || j == 1 || j == 2 || j == 3 || j == 4;
      }
    }
    NoMarkerNoMatch(Meters, s, 0);
  }

  /** "13 Ez" is one whole RunType match worth 13 km. */
  lemma EzToken()
    ensures Number("13 Ez", 0) == 2 && RunTypeAt("13 Ez", 0) == Some(Token(5, 13.0))
  {
    var s := "13 Ez";
    assert Number(s, 0) == 2;
    assert Spaces(s, 2) == 1 && Keyword(s, 3) == 2;
    assert DecimalAt(s, 0, 2) == 13.0;
  }

  /** ... which the rewrite replaces by "13k". */
  lemma EzText()
    ensures RunTypeText("13 Ez", 0) == "13" + "k"
  {
    EzToken();
    assert "13 Ez"[0..2] == "13";
  }

  /** A text that is one whole match of a rewriting pattern is rewritten to that match's replacement. */
  lemma RewriteWhole(p: Pattern, s: string, t: Token)
    requires At(p, s, 0) == Some(t) && t.len == |s|
    ensures Replace(Lex(p), Rewrite(p), s, 0) == RewriteAt(p, s, 0)
  {
    assert Lex(p)(s, 0) == Some(t) by {
      assert At(p, s, 0) == Some(t);
    }
    TakeMatch(Lex(p), Rewrite(p), s, 0, t);
  }

  lemma EzRunType()
    ensures Replace(Lex(RunType), Rewrite(RunType), "13 Ez", 0) == "13" + "k"
  {
    EzToken();
    RewriteWhole(RunType, "13 Ez", Token(5, 13.0));
    EzText();
  }

  lemma Thirteen()
    ensures IsDecimal("13") && DecimalValue("13") == 13.0
  {
    assert AllDigits("13");
    DecimalOfDigits("13");
    DigitsAreDecimal("13");
    assert "13"[..1] == "1" && "1"[..0] == [];
  }

  /** A whole number of tenths is its own rounding. */
  lemma WholeTenths(k: int)
    ensures Round1(k as real / 10.0) == k as real / 10.0
  {
    var x := k as real / 10.0;
    assert x * 10.0 == k as real;
    Round1OfTenth(x);
  }

  /** The rewrites turn "13 Ez" into "13k". */
  lemma EzNormal()
    ensures Normalize("13 Ez") == "13" + "k"
  {
    EzMeters();
    EzRunType();
  }

  /** Worked description: "13 Ez" is 13 km. */
  lemma RunTypeExample()
    ensures Distance("13 Ez") == 13.0
  {
    EzNormal();
    Thirteen();
    PlainNormal("13 Ez", "13");
    WholeTenths(130);
  }

  // "3 x 2k"
  /** After the times sign of "3 x 2k" comes the multiplicand "2k". */
  lemma TimesMultiplicand()
    ensures MultiplicandAt("3 x 2k", 3) == Some(Token(3, 2.0))
  {
    var s := "3 x 2k";
    assert Opening(s, 3) == 4;
    assert Number(s, 4) == 1 && Spaces(s, 5) == 0;
    assert DecimalAt(s, 4, 5) == 2.0;
    assert PlainAt(s, 4) == Some(Token(2, 2.0));
  }

  /** "3 x 2k" is one whole Multiply match worth 3 * 2 km. */
  lemma TimesToken()
    ensures MultiplyAt("3 x 2k", 0) == Some(Token(6, 6.0))
  {
    var s := "3 x 2k";
    assert Digits(s, 0) == 1 && Spaces(s, 1) == 1 && IsTimes(s[2]);
    assert NatAt(s, 0, 1) == 3;
    TimesMultiplicand();
  }

  /** Neither rewrite changes "3 x 2k", and it holds no '+'. */
  lemma TimesNormal()
    ensures Normalize("3 x 2k") == "3 x 2k" && '+' !in "3 x 2k"
  {
    var s := "3 x 2k";
    forall j | 0 <= j < |s| ensures s[j] != '+' {
      assert j == 0 || j == 1 || j == 2 || j == 3 || j == 4 || j == 5;
    }
    assert NoMarkerFrom(Meters, s, 0) && NoMarkerFrom(RunType, s, 0) by {
      forall j | 0 <= j < |s| ensures !Marker(Meters, s[j]) && !Marker(RunType, s[j]) {
        assert j == 0 || j == 1 || j == 2 || j == 3 || j == 4 || j == 5;
      }
    }
    NoMarkerNoMatch(Meters, s, 0);
    NoMarkerNoMatch(RunType, s, 0);
  }

  /** A text that is one whole multiplication is worth it. */
  lemma MultiplySegment(s: string, t: Token)
    requires MultiplyAt(s, 0) == Some(t) && t.len == |s|
    ensures SegmentKm(s) == t.km
  {
    assert Lex(Multiply)(s, 0) == Some(t) by {
      assert At(Multiply, s, 0) == Some(t);
    }
    TakeMatch(Lex(Multiply), Rewrite(Multiply), s, 0, t);
  }

  /** Text that both rewrites leave alone and that holds no '+' is one segment, rounded. */
  lemma OneNormalSegment(text: string)
    requires text != "" && Normalize(text) == text && '+' !in text
    ensures Distance(text) == Round1(SegmentKm(text))
  {
    OneSegment(text);
  }

  /** Worked description: "3 x 2k" is 6 km. */
  lemma MultiplyExample()
    ensures Distance("3 x 2k") == 6.0
  {
    TimesNormal();
    TimesToken();
    MultiplySegment("3 x 2k", Token(6, 6.0));
    OneNormalSegment("3 x 2k");
    WholeTenths(60);
  }

  // "400m + 3k"
  /** "400m" at the start of "400m + 3k" is a Meters match worth 0.4 km. */
  lemma MetersToken400()
    ensures Digits("400m + 3k", 0) == 3 && NatAt("400m + 3k", 0, 3) == 400
    ensures MetersAt("400m + 3k", 0) == Some(Token(4, 0.4))
  {
    var s := "400m + 3k";
    assert Digits(s, 0) == 3 && Spaces(s, 3) == 0 && MeterUnit(s, 3);
    assert NatAt(s, 0, 3) == 400;
  }

  /** No other meter distance follows it. */
  lemma MetersRest400()
    ensures Replace(Lex(Meters), Rewrite(Meters), "400m + 3k", 4) == " + 3k"
  {
    var s := "400m + 3k";
    assert NoMarkerFrom(Meters, s, 4) by {
      forall j | 4 <= j < |s| ensures !Marker(Meters, s[j]) {
        assert j == 4 || j == 5 || j == 6 || j == 7 || j == 8;
      }
    }
    NoMarkerNoMatch(Meters, s, 4);
    assert s[4..] == " + 3k";
  }

  lemma MetersText400()
    ensures MetersText("400m + 3k", 0) == Thousandths(400) + "k"
  {
    MetersToken400();
  }

  /** The meter rewrite of "400m + 3k". */
  lemma MetersStep400()
    ensures Replace(Lex(Meters), Rewrite(Meters), "400m + 3k", 0) == Thousandths(400) + "k" + " + 3k"
  {
    var s := "400m + 3k";
    var t := Token(4, 0.4);
    MetersToken400();
    assert Lex(Meters)(s, 0) == Some(t) by {
      assert At(Meters, s, 0) == Some(t);
    }
    TakeMatch(Lex(Meters), Rewrite(Meters), s, 0, t);
    assert Rewrite(Meters)(s, 0) == RewriteAt(Meters, s, 0);
    MetersText400();
    MetersRest400();
  }

  lemma QuietTail400()
    ensures AllQuiet(" + 3k")
  {
    var s := " + 3k";
    forall j | 0 <= j < |s| ensures Quiet(s[j]) {
      assert j == 0 || j == 1 || j == 2 || j == 3 || j == 4;
    }
  }

  /** The rewrites turn "400m + 3k" into `String(0.4)` + "k + 3k". */
  lemma Normal400()
    ensures Normalize("400m + 3k") == Thousandths(400) + "k" + " + 3k"
  {
    var lit := Thousandths(400);
    MetersStep400();
    QuietDecimal(lit);
    QuietTail400();
    QuietConcat(lit + "k", " + 3k");
    QuietRunType(lit + "k" + " + 3k");
  }

  /** The characters around a plain distance that make no difference to a segment. */
  lemma SpacedPlainChars(pre: string, lit: string, post: string)
    requires AllSpaces(pre) && IsDecimal(lit) && AllSpaces(post)
    ensures var s := pre + lit + "k" + post;
      (forall k :: 0 <= k < |pre| ==> !IsDigit(s[k]))
      && (forall k :: |pre| + |lit| < k < |s| ==> !IsDigit(s[k]))
      && NoMarkerFrom(Multiply, s, 0)
  {
    var s := pre + lit + "k" + post;
    var i := |pre|;
    DecimalChars(lit);
    forall k | 0 <= k < |s| ensures !IsTimes(s[k]) && (k < i || i + |lit| < k ==> !IsDigit(s[k])) {
      if k < i {
        assert s[k] == pre[k];
      } else if k < i + |lit| {
        assert s[k] == lit[k - i];
      } else if k > i + |lit| {
        assert s[k] == post[k - i - |lit| - 1];
      }
    }
  }

  /** The literal of a spaced plain distance is read in place, followed by its unit. */
  lemma SpacedLiteral(pre: string, lit: string, post: string)
    requires IsDecimal(lit)
    ensures var s := pre + lit + "k" + post; var i := |pre|;
      i + |lit| < |s| && Number(s, i) == |lit| && DecimalAt(s, i, i + |lit|) == DecimalValue(lit) && s[i + |lit|] == 'k'
  {
    var s := pre + lit + "k" + post;
    var i := |pre|;
    assert s[i..i + |lit|] == lit;
    NumberOfLiteral(s, i, lit);
    ValueOfLiteral(s, i, lit);
  }

  /** A segment made of white space, a decimal literal, 'k' and white space is worth the literal. */
  lemma SpacedPlain(pre: string, lit: string, post: string)
    requires AllSpaces(pre) && IsDecimal(lit) && AllSpaces(post)
    ensures SegmentKm(pre + lit + "k" + post) == DecimalValue(lit)
  {
    var s := pre + lit + "k" + post;
    var i, n := |pre|, |lit|;
    assert i + n < |s| && Number(s, i) == n > 0 && SameLetter(s[i + n], 'k') && DecimalAt(s, i, i + n) == DecimalValue(lit) by {
      SpacedLiteral(pre, lit, post);
    }
    assert (forall k :: 0 <= k < i ==> !IsDigit(s[k])) && (forall k :: i + n < k < |s| ==> !IsDigit(s[k]))
      && NoMarkerFrom(Multiply, s, 0) by {
      SpacedPlainChars(pre, lit, post);
    }
    PlainSegment(s, i, n);
  }

  lemma TrailingPlain(lit: string, post: string)
    requires IsDecimal(lit) && AllSpaces(post)
    ensures SegmentKm(lit + "k" + post) == DecimalValue(lit)
  {
    SpacedPlain([], lit, post);
    assert [] + lit == lit;
  }

  lemma LeadingPlain(pre: string, lit: string)
    requires AllSpaces(pre) && IsDecimal(lit)
    ensures SegmentKm(pre + lit + "k") == DecimalValue(lit)
  {
    SpacedPlain(pre, lit, []);
    assert pre + lit + "k" + [] == pre + lit + "k";
  }

  lemma Regroup(x: string)
    ensures x + " + 3k" == (x + " ") + ['+'] + (" " + "3" + "k")
  {
    assert " + 3k" == " " + ['+'] + (" " + "3" + "k");
  }

  /** ... which splits into the segments before and after the '+'. */
  lemma Split400()
    ensures Split(Thousandths(400) + "k" + " + 3k", '+') == [Thousandths(400) + "k" + " ", " " + "3" + "k"]
  {
    var lit := Thousandths(400);
    QuietDecimal(lit);
    assert '+' !in " ";
    assert '+' !in " " + "3" + "k" by {
      var b := " " + "3" + "k";
      forall j | 0 <= j < 3 ensures b[j] != '+' {
        assert j == 0 || j == 1 || j == 2;
      }
    }
    Regroup(lit + "k");
    SplitAroundOne(lit + "k" + " ", " " + "3" + "k", '+');
  }

  lemma Three()
    ensures IsDecimal("3") && DecimalValue("3") == 3.0
  {
    assert AllDigits("3");
    DecimalOfDigits("3");
    DigitsAreDecimal("3");
    assert "3"[..0] == [];
  }

  lemma FirstSegment400()
    ensures SegmentKm(Thousandths(400) + "k" + " ") == 0.4
  {
    assert AllSpaces(" ");
    TrailingPlain(Thousandths(400), " ");
  }

  lemma SecondSegment400()
    ensures SegmentKm(" " + "3" + "k") == 3.0
  {
    Three();
    assert AllSpaces(" ");
    LeadingPlain(" ", "3");
  }

  lemma TotalKm400()
    ensures TotalKm("400m + 3k") == 3.4
  {
    var lit := Thousandths(400);
    Normal400();
    Split400();
    TwoSegments(lit + "k" + " ", " " + "3" + "k");
    FirstSegment400();
    SecondSegment400();
  }

  /** Worked description: "400m + 3k" is 0.4 + 3 = 3.4 km. */
  lemma SegmentsExample()
    ensures Distance("400m + 3k") == 3.4
  {
    TotalKm400();
    WholeTenths(34);
  }
}
