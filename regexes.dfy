/**
 * The four regular expressions of `extractDistance`, each as a deterministic
 * "match starting at position i" function.
 *
 * Each pattern is matched by greedy runs in one pass. In every pattern a run
 * is followed by a character its own class excludes, an optional part is
 * followed by something its first character cannot be, and the keyword
 * alternatives start with distinct letters; so backtracking cannot find a
 * match the greedy pass misses. That argument is made here, not proved: the
 * contracts below state only what the scans rely on. Matching is
 * case-insensitive in the ASCII sense of a non-unicode `/i` pattern.
 */
module Regexes {
  import opened Options
  import opened Text

  /** One match: its length and the kilometres it stands for. */
  datatype Token = Token(len: nat, km: real)

  /** The character at `j` is the letter `lower` in either case. */
  predicate LetterAt(s: string, j: nat, lower: char) {
    j < |s| && SameLetter(s[j], lower)
  }

  /** `(?:Ez|Mp|Thr|I|R)\b` at position `k`: the length matched, 0 for no match. */
  function Keyword(s: string, k: nat): (w: nat)
    requires k <= |s|
    ensures k + w <= |s| && w <= 3
    ensures w > 0 ==> WordEnd(s, k + w)
  {
    if LetterAt(s, k, 'e') && LetterAt(s, k + 1, 'z') && WordEnd(s, k + 2) then 2
    else if LetterAt(s, k, 'm') && LetterAt(s, k + 1, 'p') && WordEnd(s, k + 2) then 2
    else if LetterAt(s, k, 't') && LetterAt(s, k + 1, 'h') && LetterAt(s, k + 2, 'r') && WordEnd(s, k + 3) then 3
    else if LetterAt(s, k, 'i') && WordEnd(s, k + 1) then 1
    else if LetterAt(s, k, 'r') && WordEnd(s, k + 1) then 1
    else 0
  }

  /** `m\b` at position `k`. */
  predicate MeterUnit(s: string, k: nat) {
    LetterAt(s, k, 'm') && WordEnd(s, k + 1)
  }

  /** `(\d+)\s*m\b` at `i`: `n` meters are `n / 1000` kilometres. */
  function MetersAt(s: string, i: nat): (r: Option<Token>)
    requires i <= |s|
    ensures r.Some? ==> 0 < r.value.len <= |s| - i && r.value.km >= 0.0 && IsDigit(s[i])
  {
    var d := Digits(s, i);
    var k := i + d + Spaces(s, i + d);
    MetersToken(d, k - i, MeterUnit(s, k), NatAt(s, i, i + d))
  }

  /** The Meters match of `n` meters whose unit is `u` characters after the start, when it is there. */
  function MetersToken(d: nat, u: nat, unit: bool, n: nat): Option<Token> {
    if d > 0 && unit then Some(Token(u + 1, Kilometres(n))) else None
  }

  /** What a Meters match at `i` is replaced by: `String(n / 1000) + 'k'`. */
  function MetersText(s: string, i: nat): string
    requires i <= |s|
  {
    Thousandths(NatAt(s, i, i + Digits(s, i))) + "k"
  }

  /** `(\d+(?:\.\d+)?)\s*(?:Ez|Mp|Thr|I|R)\b` at `i`: the number is the distance. */
  function RunTypeAt(s: string, i: nat): (r: Option<Token>)
    requires i <= |s|
    ensures r.Some? ==> 0 < r.value.len <= |s| - i && r.value.km >= 0.0 && IsDigit(s[i])
  {
    var n := Number(s, i);
    var k := i + n + Spaces(s, i + n);
    RunTypeToken(n, k - i, Keyword(s, k), DecimalAt(s, i, i + n))
  }

  /** The RunType match worth `km` whose keyword of length `w` is `u` characters after the start. */
  function RunTypeToken(n: nat, u: nat, w: nat, km: real): Option<Token> {
    if n > 0 && w > 0 then Some(Token(u + w, km)) else None
  }

  /** What a RunType match at `i` is replaced by: its number, `$1`, then 'k'. */
  function RunTypeText(s: string, i: nat): string
    requires i <= |s|
  {
    s[i..i + Number(s, i)] + "k"
  }

  /** `(\d+(?:\.\d+)?)\s*k` at `i`: its length and the distance it names. */
  function PlainAt(s: string, i: nat): (r: Option<Token>)
    requires i <= |s|
    ensures r.Some? ==> 0 < r.value.len <= |s| - i && r.value.km >= 0.0 && IsDigit(s[i])
  {
    var n := Number(s, i);
    var e := i + n + Spaces(s, i + n);
    if n > 0 && LetterAt(s, e, 'k') then Some(Token(e + 1 - i, DecimalAt(s, i, i + n))) else None
  }

  /** `\s*\(?` at `i`: where the number after the white space and parenthesis starts. */
  function Opening(s: string, i: nat): (c: nat)
    requires i <= |s|
    ensures i <= c <= |s|
  {
    var b := i + Spaces(s, i);
    if b < |s| && s[b] == '(' then b + 1 else b
  }

  /**
   * The part of Multiply after the times sign, `\s*\(?(\d+(?:\.\d+)?)\s*k`, at
   * `i`: an opening, then what Plain matches.
   */
  function MultiplicandAt(s: string, i: nat): (r: Option<Token>)
    requires i <= |s|
    ensures r.Some? ==> 0 < r.value.len <= |s| - i && r.value.km >= 0.0
  {
    var c := Opening(s, i);
    match PlainAt(s, c)
    case Some(t) => Some(Token(c - i + t.len, t.km))
    case None => None
  }

  /** `([0-9]+)\s*[x×*]` at `i` and then a multiplicand: the repetitions times its distance. */
  function MultiplyAt(s: string, i: nat): (r: Option<Token>)
    requires i <= |s|
    ensures r.Some? ==> 0 < r.value.len <= |s| - i && r.value.km >= 0.0 && IsDigit(s[i])
  {
    var r := Digits(s, i);
    var a := i + r + Spaces(s, i + r);
    if r == 0 || a == |s| || !IsTimes(s[a]) then None
    else Times(NatAt(s, i, i + r), a + 1 - i, MultiplicandAt(s, a + 1))
  }

  /** `reps` repetitions of the multiplicand `m` found `offset` characters after the start. */
  function Times(reps: nat, offset: nat, m: Option<Token>): (r: Option<Token>)
    requires m.Some? ==> m.value.km >= 0.0
    ensures r.Some? <==> m.Some?
    ensures r.Some? ==> r.value.len == offset + m.value.len && r.value.km >= 0.0
  {
    match m
    case Some(t) =>
      assert reps as real * t.km >= 0.0;
      Some(Token(offset + t.len, reps as real * t.km))
    case None => None
  }
}
