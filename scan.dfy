/**
 * The leftmost-first scans that JavaScript performs with a global regular
 * expression: `s.replace(re, f)` rewrites every match, and `re.exec(s)`, driven
 * by `re.lastIndex`, returns the next match at or after a position. They are
 * written once for any matcher, a function that gives the match starting at a
 * position of a text; the four patterns of the extractor are such matchers.
 * Also `s.split(sep)` for a one-character separator.
 */
module Scan {
  import opened Options
  import opened Text
  import opened Regexes

  /** The match of a regular expression that starts at a given position of a text. */
  type Matcher = (string, nat) -> Option<Token>

  /** What a rewriting pattern puts in place of its match at a given position. */
  type Rewriter = (string, nat) -> string

  /** Every match is non-empty, lies within the text, starts with a digit and is worth at least 0 km. */
  ghost predicate Sound(lex: Matcher) {
    forall s: string, i: nat :: lex(s, i).Some? ==>
      i < |s| && 0 < lex(s, i).value.len <= |s| - i && IsDigit(s[i]) && lex(s, i).value.km >= 0.0
  }

  /** `s.replace(re, f)` for a global `re`, from position `i` on: every leftmost match replaced by `f`. */
  function Replace(lex: Matcher, f: Rewriter, s: string, i: nat): string
    requires Sound(lex) && i <= |s|
    decreases |s| - i
  {
    if i == |s| then []
    else match lex(s, i)
      case Some(t) => f(s, i) + Replace(lex, f, s, i + t.len)
      case None => [s[i]] + Replace(lex, f, s, i + 1)
  }

  /**
   * The kilometres of the successive non-overlapping leftmost matches of a
   * global `re` from position `i` on. Every match is worth at least 0 km, so
   * together they are too.
   */
  function Total(lex: Matcher, s: string, i: nat): (km: real)
    requires Sound(lex) && i <= |s|
    ensures km >= 0.0
    decreases |s| - i
  {
    if i == |s| then 0.0
    else match lex(s, i)
      case Some(t) => t.km + Total(lex, s, i + t.len)
      case None => Total(lex, s, i + 1)
  }

  /** A match found by `exec`, with the position where it starts. */
  datatype Hit = Hit(start: nat, token: Token)

  /**
   * `re.exec(s)` with `re.lastIndex == from`: the leftmost match at or after
   * `from`; no match starts between `from` and it.
   */
  function Exec(lex: Matcher, s: string, from: nat): (h: Option<Hit>)
    requires Sound(lex) && from <= |s|
    ensures h.Some? ==> from <= h.value.start && lex(s, h.value.start) == Some(h.value.token)
    ensures h.Some? ==> 0 < h.value.token.len && h.value.start + h.value.token.len <= |s|
    decreases |s| - from
  {
    if from == |s| then None
    else match lex(s, from)
      case Some(t) => Some(Hit(from, t))
      case None => Exec(lex, s, from + 1)
  }

  /** `exec` finds the leftmost match: none starts between `from` and the hit, or anywhere after `from` when there is no hit. */
  lemma {:induction false} ExecIsLeftmost(lex: Matcher, s: string, from: nat)
    requires Sound(lex) && from <= |s|
    ensures Exec(lex, s, from).Some? ==> forall j :: from <= j < Exec(lex, s, from).value.start ==> lex(s, j).None?
    ensures Exec(lex, s, from).None? ==> forall j :: from <= j < |s| ==> lex(s, j).None?
    decreases |s| - from
  {
    if from < |s| && lex(s, from).None? {
      assert Exec(lex, s, from) == Exec(lex, s, from + 1);
      ExecIsLeftmost(lex, s, from + 1);
    }
  }

  /**
   * Driving `exec` from `from` walks the same matches as `Total`: a hit is the
   * first of them and contributes its kilometres ahead of those after it.
   */
  lemma {:induction false} ExecFound(lex: Matcher, s: string, from: nat)
    requires Sound(lex) && from <= |s| && Exec(lex, s, from).Some?
    ensures var h := Exec(lex, s, from).value;
      Total(lex, s, from) == h.token.km + Total(lex, s, h.start + h.token.len)
    decreases |s| - from
  {
    if lex(s, from).None? {
      ExecFound(lex, s, from + 1);
    }
  }

  /** When `exec` finds nothing, nothing is left to count. */
  lemma {:induction false} ExecDone(lex: Matcher, s: string, from: nat)
    requires Sound(lex) && from <= |s| && Exec(lex, s, from).None?
    ensures Total(lex, s, from) == 0.0
    decreases |s| - from
  {
    if from < |s| {
      ExecDone(lex, s, from + 1);
    }
  }

  /** Text at none of whose positions a match starts is copied by `Replace` and yields no matches. */
  lemma {:induction false} NoMatchFrom(lex: Matcher, f: Rewriter, s: string, i: nat)
    requires Sound(lex) && i <= |s|
    requires forall j :: i <= j < |s| ==> lex(s, j).None?
    ensures Replace(lex, f, s, i) == s[i..]
    ensures Total(lex, s, i) == 0.0
    decreases |s| - i
  {
    if i < |s| {
      NoMatchFrom(lex, f, s, i + 1);
      assert s[i..] == [s[i]] + s[i + 1..];
    }
  }

  /** A match at `i` is rewritten, counted, and found by `exec` from `i`. */
  lemma TakeMatch(lex: Matcher, f: Rewriter, s: string, i: nat, t: Token)
    requires Sound(lex) && i <= |s| && lex(s, i) == Some(t)
    ensures Replace(lex, f, s, i) == f(s, i) + Replace(lex, f, s, i + t.len)
    ensures Total(lex, s, i) == t.km + Total(lex, s, i + t.len)
    ensures Exec(lex, s, i) == Some(Hit(i, t))
  {
  }

  /** Every match starts with a digit, so a stretch of text without digits counts nothing. */
  lemma {:induction false} SkipNoDigit(lex: Matcher, s: string, i: nat, j: nat)
    requires Sound(lex) && i <= j <= |s|
    requires forall k :: i <= k < j ==> !IsDigit(s[k])
    ensures Total(lex, s, i) == Total(lex, s, j)
    decreases j - i
  {
    if i < j {
      SkipNoDigit(lex, s, i + 1, j);
      assert lex(s, i).None?;
    }
  }

  /** A text whose digits all lie inside one match is worth that match. */
  lemma OnlyMatch(lex: Matcher, s: string, i: nat, t: Token)
    requires Sound(lex) && i <= |s| && lex(s, i) == Some(t)
    requires forall k :: 0 <= k < i ==> !IsDigit(s[k])
    requires forall k :: i + t.len <= k < |s| ==> !IsDigit(s[k])
    ensures Total(lex, s, 0) == t.km
  {
    SkipNoDigit(lex, s, 0, i);
    assert Total(lex, s, i) == t.km + Total(lex, s, i + t.len);
    SkipNoDigit(lex, s, i + t.len, |s|);
  }

  /** A match at the start and none after it: the match is rewritten and the rest copied. */
  lemma FirstMatchOnly(lex: Matcher, f: Rewriter, s: string, t: Token)
    requires Sound(lex) && lex(s, 0) == Some(t)
    requires forall j :: t.len <= j < |s| ==> lex(s, j).None?
    ensures Replace(lex, f, s, 0) == f(s, 0) + s[t.len..]
  {
    TakeMatch(lex, f, s, 0, t);
    NoMatchFrom(lex, f, s, t.len);
  }

  /** Every match starts with a digit, so text without digits holds none. */
  lemma NoDigitNoMatch(lex: Matcher, f: Rewriter, s: string)
    requires Sound(lex) && NoDigit(s)
    ensures Replace(lex, f, s, 0) == s
    ensures Total(lex, s, 0) == 0.0
  {
    NoMatchFrom(lex, f, s, 0);
  }

  // ------------------------------------------------------------ splitting

  /** Joins pieces with `sep` between them: the inverse of `Split`. */
  function Join(pieces: seq<string>, sep: char): string
    requires |pieces| > 0
  {
    if |pieces| == 1 then pieces[0] else pieces[0] + [sep] + Join(pieces[1..], sep)
  }

  /** JavaScript's `s.split(sep)` for a one-character separator. */
  function Split(s: string, sep: char): (r: seq<string>)
    ensures |r| > 0
    ensures Join(r, sep) == s
    ensures forall k :: 0 <= k < |r| ==> sep !in r[k]
    decreases |s|
  {
    if s == [] then [""]
    else if s[0] == sep then
      var r := [""] + Split(s[1..], sep);
      assert r[1..] == Split(s[1..], sep);
      r
    else
      var rest := Split(s[1..], sep);
      var r := [[s[0]] + rest[0]] + rest[1..];
      assert |r| == 1 ==> Join(r, sep) == [s[0]] + Join(rest, sep);
      assert |r| > 1 ==> r[1..] == rest[1..] && Join(r, sep) == [s[0]] + Join(rest, sep);
      r
  }

  /** Splitting text that holds no separator gives the text itself. */
  lemma {:induction false} SplitWithoutSeparator(s: string, sep: char)
    requires sep !in s
    ensures Split(s, sep) == [s]
    decreases |s|
  {
    if s != [] {
      SplitWithoutSeparator(s[1..], sep);
      assert s == [s[0]] + s[1..];
    }
  }

  /** Every piece of digit-free text is digit-free. */
  lemma {:induction false} SplitNoDigit(s: string, sep: char)
    requires NoDigit(s)
    ensures forall k :: 0 <= k < |Split(s, sep)| ==> NoDigit(Split(s, sep)[k])
    decreases |s|
  {
    if s != [] {
      SplitNoDigit(s[1..], sep);
    }
  }
}
