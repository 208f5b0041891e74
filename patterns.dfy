/**
 * The four regular expressions of the distance extractor, dispatched by name,
 * and what each rewrite puts in place of its match.
 */
module Patterns {
  import opened Options
  import opened Text
  import opened Regexes
  import opened Scan

  /**
   * The four regular expressions of the extractor:
   * Meters   `(\d+)\s*m\b`                                   (replaced by n/1000 + "k")
   * RunType  `(\d+(?:\.\d+)?)\s*(?:Ez|Mp|Thr|I|R)\b`        (replaced by "$1k")
   * Multiply `([0-9]+)\s*[x×*]\s*\(?(\d+(?:\.\d+)?)\s*k`     (worth reps * dist)
   * Plain    `(\d+(?:\.\d+)?)\s*k`                           (worth dist)
   */
  datatype Pattern = Meters | RunType | Multiply | Plain

  /** The match of `p` that starts at position `i`, none past the end of the text. */
  function At(p: Pattern, s: string, i: nat): (r: Option<Token>)
    ensures r.Some? ==> i < |s| && 0 < r.value.len <= |s| - i && r.value.km >= 0.0 && IsDigit(s[i])
  {
    if i > |s| then None
    else match p
      case Meters => MetersAt(s, i)
      case RunType => RunTypeAt(s, i)
      case Multiply => MultiplyAt(s, i)
      case Plain => PlainAt(s, i)
  }

  /** The matcher of `p`, as the scans use it. */
  function Lex(p: Pattern): (lex: Matcher)
    ensures Sound(lex)
  {
    (s: string, i: nat) => At(p, s, i)
  }

  /** The two patterns that the extractor uses to rewrite the text. */
  predicate Rewrites(p: Pattern) {
    p == Meters || p == RunType
  }

  /** What the rewrite of `p` puts in place of its match at `i`; the counting patterns rewrite nothing. */
  function RewriteAt(p: Pattern, s: string, i: nat): string {
    if i > |s| then ""
    else if p == Meters then MetersText(s, i)
    else if p == RunType then RunTypeText(s, i)
    else ""
  }

  /** The replacement function of `p`, as `Replace` uses it. */
  function Rewrite(p: Pattern): Rewriter {
    (s: string, i: nat) => RewriteAt(p, s, i)
  }

  /** `text` is a decimal literal worth `km`, followed by 'k'. */
  predicate Worth(text: string, km: real) {
    |text| > 0 && text[|text| - 1] == 'k'
    && IsDecimal(text[..|text| - 1])
    && DecimalValue(text[..|text| - 1]) == km
  }

  /**
   * A rewrite keeps the quantity: the text put in place of a match is a plain
   * distance worth what the match stands for.
   */
  lemma RewriteKeepsValue(p: Pattern, s: string, i: nat)
    requires Rewrites(p) && At(p, s, i).Some?
    ensures Worth(Rewrite(p)(s, i), Lex(p)(s, i).value.km)
  {
    if p == Meters {
      MetersKeepsValue(s, i);
    } else {
      RunTypeKeepsValue(s, i);
    }
  }

  lemma MetersKeepsValue(s: string, i: nat)
    requires i <= |s| && MetersAt(s, i).Some?
    ensures Worth(MetersText(s, i), MetersAt(s, i).value.km)
  {
    var n := NatAt(s, i, i + Digits(s, i));
    var text := MetersText(s, i);
    assert text[..|text| - 1] == Thousandths(n);
  }

  lemma RunTypeKeepsValue(s: string, i: nat)
    requires i <= |s| && RunTypeAt(s, i).Some?
    ensures Worth(RunTypeText(s, i), RunTypeAt(s, i).value.km)
  {
    var n := Number(s, i);
    var text := RunTypeText(s, i);
    assert text[..|text| - 1] == s[i..i + n];
    NumberIsDecimal(s, i);
    DecimalAtSlice(s, i, i + n);
  }

  // ------------------------------------------------------------- markers

  /** A character that every match of `p` must contain somewhere. */
  predicate Marker(p: Pattern, c: char) {
    match p
    case Meters => SameLetter(c, 'm')
    case RunType =>
      SameLetter(c, 'e') || SameLetter(c, 'm') || SameLetter(c, 't') || SameLetter(c, 'i') || SameLetter(c, 'r')
    case Multiply => IsTimes(c)
    case Plain => SameLetter(c, 'k')
  }

  /** No character from `i` on is a marker of `p`. */
  predicate NoMarkerFrom(p: Pattern, s: string, i: nat) {
    forall j :: i <= j < |s| ==> !Marker(p, s[j])
  }

  /** Text without the pattern's marker character holds no match of it. */
  lemma LexNeedsMarker(p: Pattern, s: string, i: nat)
    requires i <= |s| && NoMarkerFrom(p, s, i)
    ensures Lex(p)(s, i) == None
  {
    match p
    case Meters => MetersNeedsMarker(s, i);
    case RunType => RunTypeNeedsMarker(s, i);
    case Multiply => MultiplyNeedsMarker(s, i);
    case Plain => PlainNeedsMarker(s, i);
  }

  lemma MetersNeedsMarker(s: string, i: nat)
    requires i <= |s| && NoMarkerFrom(Meters, s, i)
    ensures MetersAt(s, i) == None
  {
    var d := Digits(s, i);
    var k := i + d + Spaces(s, i + d);
    assert !MeterUnit(s, k) by {
      if k < |s| {
        assert !Marker(Meters, s[k]);
      }
    }
  }

  lemma RunTypeNeedsMarker(s: string, i: nat)
    requires i <= |s| && NoMarkerFrom(RunType, s, i)
    ensures RunTypeAt(s, i) == None
  {
    var n := Number(s, i);
    var k := i + n + Spaces(s, i + n);
    assert Keyword(s, k) == 0 by {
      if k < |s| {
        assert !Marker(RunType, s[k]);
      }
    }
  }

  lemma MultiplyNeedsMarker(s: string, i: nat)
    requires i <= |s| && NoMarkerFrom(Multiply, s, i)
    ensures MultiplyAt(s, i) == None
  {
    var r := Digits(s, i);
    var a := i + r + Spaces(s, i + r);
    if a < |s| {
      assert !Marker(Multiply, s[a]);
    }
  }

  lemma PlainNeedsMarker(s: string, i: nat)
    requires i <= |s| && NoMarkerFrom(Plain, s, i)
    ensures PlainAt(s, i) == None
  {
    var n := Number(s, i);
    var e := i + n + Spaces(s, i + n);
    if e < |s| {
      assert !Marker(Plain, s[e]);
    }
  }

  /** Text without the marker of `p` from `i` on is left alone by it and holds no match of it there. */
  lemma NoMarkerNoMatch(p: Pattern, s: string, i: nat)
    requires i <= |s| && NoMarkerFrom(p, s, i)
    ensures Replace(Lex(p), Rewrite(p), s, i) == s[i..]
    ensures Total(Lex(p), s, i) == 0.0
    ensures Exec(Lex(p), s, i).None?
  {
    forall j | i <= j < |s| ensures Lex(p)(s, j).None? {
      LexNeedsMarker(p, s, j);
    }
    NoMatchFrom(Lex(p), Rewrite(p), s, i);
  }
}
