/**
 * The distance of a workout description in kilometres, as `extractDistance`
 * computes it: meters are rewritten to kilometres, run types ("13 Ez") to
 * kilometres, the text is cut at every '+', and each segment counts either its
 * multiplications ("3 x 2k") or, when it has none, every plain distance ("5k");
 * the sum is rounded to one decimal.
 */
module Extraction {
  import opened Options
  import opened Text
  import opened Regexes
  import opened Scan
  import opened Patterns

  /** Steps 1 and 2: "400m" becomes "0.4k", then "13 Ez" becomes "13k". */
  function Normalize(text: string): string {
    var meters := Replace(Lex(Meters), Rewrite(Meters), text, 0);
    Replace(Lex(RunType), Rewrite(RunType), meters, 0)
  }

  /**
   * The kilometres of one '+'-separated segment: its multiplications when
   * `exec` finds one, otherwise its plain distances.
   */
  function SegmentKm(seg: string): (km: real)
    ensures km >= 0.0
  {
    if Exec(Lex(Multiply), seg, 0).Some? then Total(Lex(Multiply), seg, 0) else Total(Lex(Plain), seg, 0)
  }

  /** The kilometres of segments, accumulated from the first to the last. */
  function SegmentsKm(segs: seq<string>): (km: real)
    ensures km >= 0.0
  {
    if segs == [] then 0.0 else SegmentsKm(segs[..|segs| - 1]) + SegmentKm(segs[|segs| - 1])
  }

  /** The unrounded total of a description. */
  function TotalKm(text: string): (km: real)
    ensures km >= 0.0
  {
    SegmentsKm(Split(Normalize(text), '+'))
  }

  /** A whole number of tenths. */
  predicate IsTenth(x: real) {
    (x * 10.0).Floor as real == x * 10.0
  }

  /** `Math.round(x * 10) / 10`: the nearest tenth, a half rounding up. */
  function Round1(x: real): (r: real)
    ensures IsTenth(r)
    ensures x - 0.05 < r <= x + 0.05
    ensures x >= 0.0 ==> r >= 0.0
  {
    var f := (x * 10.0 + 0.5).Floor;
    assert f as real * 10.0 / 10.0 == f as real;
    f as real / 10.0
  }

  /** `extractDistance(text)`: 0 for empty text, otherwise the total rounded to a tenth. */
  function Distance(text: string): (km: real)
    ensures km >= 0.0 && IsTenth(km)
    ensures text == "" ==> km == 0.0
    ensures text != "" ==> TotalKm(text) - 0.05 < km <= TotalKm(text) + 0.05
  {
    if text == "" then 0.0 else Round1(TotalKm(text))
  }

  /**
   * The `while ((m = re.exec(segment)) !== null)` loop of a global `re` whose
   * `lastIndex` starts at 0: adds every match's kilometres to `total` and tells
   * whether there was a match.
   */
  method AddMatches(re: Matcher, segment: string, total: real) returns (sum: real, matched: bool)
    requires Sound(re)
    ensures sum == total + Total(re, segment, 0)
    ensures matched <==> Exec(re, segment, 0).Some?
    ensures !matched ==> sum == total
  {
    sum := total;
    matched := false;
    var lastIndex := 0;
    var m := Exec(re, segment, lastIndex);
    while m.Some?
      invariant lastIndex <= |segment| && m == Exec(re, segment, lastIndex)
      invariant sum + Total(re, segment, lastIndex) == total + Total(re, segment, 0)
      invariant !matched ==> lastIndex == 0
      invariant matched ==> Exec(re, segment, 0).Some?
      decreases |segment| - lastIndex
    {
      ExecFound(re, segment, lastIndex);
      sum := sum + m.value.token.km;
      matched := true;
      lastIndex := m.value.start + m.value.token.len;
      m := Exec(re, segment, lastIndex);
    }
    ExecDone(re, segment, lastIndex);
  }

  /**
   * The body of the loop over segments: the multiplication scan and, when it
   * matched nothing, the plain scan, both adding to `total`.
   */
  method AddSegment(segment: string, total: real) returns (sum: real)
    ensures sum == total + SegmentKm(segment)
  {
    var multiRegex := Lex(Multiply);
    var simpleRegex := Lex(Plain);
    var matched;
    sum, matched := AddMatches(multiRegex, segment, total);
    if !matched {
      sum, matched := AddMatches(simpleRegex, segment, sum);
    }
  }

  /** The kilometres of one more segment. */
  lemma SegmentsKmNext(segs: seq<string>, i: nat)
    requires i < |segs|
    ensures SegmentsKm(segs[..i + 1]) == SegmentsKm(segs[..i]) + SegmentKm(segs[i])
  {
    assert segs[..i + 1][..i] == segs[..i];
  }

  /** `extractDistance`: 0 for empty text, otherwise the two rewrites, the segments, and the rounded total. */
  method ExtractDistance(text: string) returns (km: real)
    ensures km == Distance(text)
  {
    if text == "" {
      return 0.0;
    }
    var processedText := Replace(Lex(Meters), Rewrite(Meters), text, 0);
    processedText := Replace(Lex(RunType), Rewrite(RunType), processedText, 0);
    var total := 0.0;
    var segments := Split(processedText, '+');
    for i := 0 to |segments|
      invariant total == SegmentsKm(segments[..i])
    {
      SegmentsKmNext(segments, i);
      total := AddSegment(segments[i], total);
    }
    assert segments[..|segments|] == segments;
    km := Round1(total);
  }

  // ------------------------------------------------------------- properties

  /**
   * The segment rule: when a multiplication starts anywhere in the segment, the
   * segment is worth its multiplications and its plain distances do not count;
   * otherwise it is worth its plain distances.
   */
  lemma SegmentRule(seg: string)
    ensures (exists j :: 0 <= j < |seg| && Lex(Multiply)(seg, j).Some?) ==> SegmentKm(seg) == Total(Lex(Multiply), seg, 0)
    ensures (forall j :: 0 <= j < |seg| ==> Lex(Multiply)(seg, j).None?) ==> SegmentKm(seg) == Total(Lex(Plain), seg, 0)
  {
    ExecIsLeftmost(Lex(Multiply), seg, 0);
    if Exec(Lex(Multiply), seg, 0).Some? {
      var h := Exec(Lex(Multiply), seg, 0).value;
      assert Lex(Multiply)(seg, h.start).Some?;
    }
  }

  /** Rounding a whole number of tenths leaves it unchanged. */
  lemma Round1OfTenth(x: real)
    requires IsTenth(x)
    ensures Round1(x) == x
  {
    var f := (x * 10.0).Floor;
    assert (f as real + 0.5).Floor == f;
    assert x * 10.0 + 0.5 == f as real + 0.5;
    assert f as real / 10.0 == x;
  }

  /** Rounding twice is rounding once. */
  lemma Round1Idempotent(x: real)
    ensures Round1(Round1(x)) == Round1(x)
  {
    Round1OfTenth(Round1(x));
  }

  /** Segments none of which holds a digit are worth nothing. */
  lemma {:induction false} SegmentsWithoutDigits(segs: seq<string>)
    requires forall k :: 0 <= k < |segs| ==> NoDigit(segs[k])
    ensures SegmentsKm(segs) == 0.0
    decreases |segs|
  {
    if segs != [] {
      var last := segs[|segs| - 1];
      NoDigitNoMatch(Lex(Multiply), Rewrite(Multiply), last);
      NoDigitNoMatch(Lex(Plain), Rewrite(Plain), last);
      SegmentsWithoutDigits(segs[..|segs| - 1]);
    }
  }

  /** A description without a single digit, such as "Rest", has distance 0. */
  lemma NoDigitNoDistance(text: string)
    requires NoDigit(text)
    ensures Distance(text) == 0.0
  {
    NoDigitNoMatch(Lex(Meters), Rewrite(Meters), text);
    NoDigitNoMatch(Lex(RunType), Rewrite(RunType), text);
    SplitNoDigit(text, '+');
    SegmentsWithoutDigits(Split(text, '+'));
    Round1OfTenth(0.0);
  }
}
