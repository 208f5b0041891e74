/**
 * Characters, runs and number literals of workout descriptions: the character
 * classes the extractor's regular expressions use, the greedy runs they match,
 * the value `parseFloat` gives a matched literal, and the text `String(n / 1000)`
 * produces for the meter rewrite.
 */
module Text {

  // ---------------------------------------------------------------- characters

  /** `\d` */
  predicate IsDigit(c: char) {
    '0' <= c <= '9'
  }

  /** `\s`: the ECMAScript white-space and line-terminator code points. */
  predicate IsSpace(c: char) {
    c == '\t' || c == '\n' || c == '\U{B}' || c == '\U{C}' || c == '\r' || c == ' '
    || c == '\U{A0}' || c == '\U{1680}' || ('\U{2000}' <= c <= '\U{200A}')
    || c == '\U{2028}' || c == '\U{2029}' || c == '\U{202F}' || c == '\U{205F}'
    || c == '\U{3000}' || c == '\U{FEFF}'
  }

  /** `\w`: the characters on the inside of a word boundary `\b`. */
  predicate IsWordChar(c: char) {
    IsDigit(c) || ('a' <= c <= 'z') || ('A' <= c <= 'Z') || c == '_'
  }

  /** `c` is the lower-case letter `lower` or its upper-case form: the case folding of a non-unicode `/i` pattern. */
  predicate SameLetter(c: char, lower: char) {
    c == lower || c as int + 32 == lower as int
  }

  /** `[x×*]` under `/i`. */
  predicate IsTimes(c: char) {
    SameLetter(c, 'x') || c == '\U{D7}' || c == '*'
  }

  predicate AllDigits(s: string) {
    forall j :: 0 <= j < |s| ==> IsDigit(s[j])
  }

  predicate AllSpaces(s: string) {
    forall j :: 0 <= j < |s| ==> IsSpace(s[j])
  }

  predicate NoDigit(s: string) {
    forall j :: 0 <= j < |s| ==> !IsDigit(s[j])
  }

  /** `\b` right after a word character at position `i - 1`. */
  predicate WordEnd(s: string, i: nat)
    requires i <= |s|
  {
    i == |s| || !IsWordChar(s[i])
  }

  // ------------------------------------------------------------------- runs

  /** Length of the longest run of digits starting at `i`: a greedy `\d*`. */
  function Digits(s: string, i: nat): (n: nat)
    requires i <= |s|
    ensures i + n <= |s|
    ensures i + n < |s| ==> !IsDigit(s[i + n])
    decreases |s| - i
  {
    if i < |s| && IsDigit(s[i]) then 1 + Digits(s, i + 1) else 0
  }

  /** Length of the longest run of white space starting at `i`: a greedy `\s*`. */
  function Spaces(s: string, i: nat): (n: nat)
    requires i <= |s|
    ensures i + n <= |s|
    ensures i + n < |s| ==> !IsSpace(s[i + n])
    decreases |s| - i
  {
    if i < |s| && IsSpace(s[i]) then 1 + Spaces(s, i + 1) else 0
  }

  /** Length of the decimal literal `\d+(?:\.\d+)?` starting at `i`, 0 when there is none. */
  function Number(s: string, i: nat): (n: nat)
    requires i <= |s|
    ensures i + n <= |s|
    ensures n == 0 <==> i == |s| || !IsDigit(s[i])
    ensures i + n < |s| ==> !IsDigit(s[i + n])
  {
    var d := Digits(s, i);
    if d == 0 then 0
    else if i + d + 1 < |s| && s[i + d] == '.' && IsDigit(s[i + d + 1]) then d + 1 + Digits(s, i + d + 1)
    else d
  }

  /** A decimal literal `\d+(?:\.\d+)?`: all of it is read as one number. */
  predicate IsDecimal(lit: string) {
    |lit| > 0 && Number(lit, 0) == |lit|
  }

  /** Every character of a digit run is a digit. */
  lemma {:induction false} DigitsRun(s: string, i: nat, k: nat)
    requires i <= |s| && i <= k < i + Digits(s, i)
    ensures IsDigit(s[k])
    decreases k - i
  {
    if i < k {
      DigitsRun(s, i + 1, k);
    }
  }

  /** A digit run followed by a non-digit (or the end) is exactly what `Digits` measures. */
  lemma {:induction false} DigitsExact(s: string, i: nat, n: nat)
    requires i + n <= |s| && (forall k :: i <= k < i + n ==> IsDigit(s[k]))
    requires i + n < |s| ==> !IsDigit(s[i + n])
    ensures Digits(s, i) == n
    decreases n
  {
    if n > 0 {
      DigitsExact(s, i + 1, n - 1);
    }
  }

  /** `Spaces` counterpart of `DigitsExact`. */
  lemma {:induction false} SpacesExact(s: string, i: nat, n: nat)
    requires i + n <= |s| && (forall k :: i <= k < i + n ==> IsSpace(s[k]))
    requires i + n < |s| ==> !IsSpace(s[i + n])
    ensures Spaces(s, i) == n
    decreases n
  {
    if n > 0 {
      SpacesExact(s, i + 1, n - 1);
    }
  }

  /** Digit runs inside a slice are the runs of the whole, cut at the slice's end. */
  lemma {:induction false} DigitsOfSlice(s: string, i: nat, j: nat, k: nat)
    requires i + k <= j <= |s|
    ensures Digits(s[i..j], k) == if Digits(s, i + k) < j - i - k then Digits(s, i + k) else j - i - k
    decreases j - i - k
  {
    if i + k < j && IsDigit(s[i + k]) {
      DigitsOfSlice(s, i, j, k + 1);
    }
  }

  /** A digit run stops at a following non-digit. */
  lemma {:induction false} DigitsConcat(x: string, t: string, i: nat)
    requires i <= |x| && t != [] && !IsDigit(t[0])
    ensures Digits(x + t, i) == Digits(x, i)
    decreases |x| - i
  {
    if i < |x| && IsDigit(x[i]) {
      DigitsConcat(x, t, i + 1);
    }
  }

  /** A run of white space stops at a following non-space. */
  lemma {:induction false} SpacesConcat(x: string, t: string, i: nat)
    requires i <= |x| && t != [] && !IsSpace(t[0])
    ensures Spaces(x + t, i) == Spaces(x, i)
    decreases |x| - i
  {
    if i < |x| && IsSpace(x[i]) {
      SpacesConcat(x, t, i + 1);
    }
  }

  /** A number stops at a following character that is neither a digit nor a point. */
  lemma NumberConcat(x: string, t: string, i: nat)
    requires i <= |x| && t != [] && !IsDigit(t[0]) && t[0] != '.'
    ensures Number(x + t, i) == Number(x, i)
  {
    var s := x + t;
    DigitsConcat(x, t, i);
    var d := Digits(x, i);
    if d > 0 && i + d + 1 < |x| {
      if x[i + d] == '.' && IsDigit(x[i + d + 1]) {
        DigitsConcat(x, t, i + d + 1);
      }
    } else if d > 0 && i + d + 1 == |x| {
      assert s[i + d + 1] == t[0];
    } else if d > 0 {
      assert s[i + d] == t[0];
    }
  }

  /** Runs in `u` do not depend on what comes before it. */
  lemma {:induction false} DigitsShift(pre: string, u: string, i: nat)
    requires i <= |u|
    ensures Digits(pre + u, |pre| + i) == Digits(u, i)
    decreases |u| - i
  {
    if i < |u| {
      assert (pre + u)[|pre| + i] == u[i];
      DigitsShift(pre, u, i + 1);
    }
  }

  lemma {:induction false} SpacesShift(pre: string, u: string, i: nat)
    requires i <= |u|
    ensures Spaces(pre + u, |pre| + i) == Spaces(u, i)
    decreases |u| - i
  {
    if i < |u| {
      assert (pre + u)[|pre| + i] == u[i];
      SpacesShift(pre, u, i + 1);
    }
  }

  lemma NumberShift(pre: string, u: string, i: nat)
    requires i <= |u|
    ensures Number(pre + u, |pre| + i) == Number(u, i)
  {
    var s := pre + u;
    DigitsShift(pre, u, i);
    var d := Digits(u, i);
    if d > 0 && i + d + 1 < |u| {
      assert s[|pre| + i + d] == u[i + d];
      assert s[|pre| + i + d + 1] == u[i + d + 1];
      DigitsShift(pre, u, i + d + 1);
    }
  }

  /** What `Number` measures is a decimal literal. */
  lemma NumberIsDecimal(s: string, i: nat)
    requires i <= |s| && Number(s, i) > 0
    ensures IsDecimal(s[i..i + Number(s, i)])
  {
    var d := Digits(s, i);
    var n := Number(s, i);
    var u := s[i..i + n];
    DigitsOfSlice(s, i, i + n, 0);
    assert Digits(u, 0) == d;
    if n > d {
      FractionOfSlice(s, i, d, n);
    }
  }

  lemma FractionOfSlice(s: string, i: nat, d: nat, n: nat)
    requires i <= |s| && 0 < d == Digits(s, i) && i + d + 1 < |s| && s[i + d] == '.' && IsDigit(s[i + d + 1])
    requires n == d + 1 + Digits(s, i + d + 1)
    ensures var u := s[i..i + n]; Digits(u, 0) == d ==> Number(u, 0) == n
  {
    var u := s[i..i + n];
    DigitsOfSlice(s, i, i + n, d + 1);
    assert u[d] == s[i + d] && u[d + 1] == s[i + d + 1];
  }

  /** The characters of a decimal literal are digits and a point. */
  lemma DecimalChars(lit: string)
    requires IsDecimal(lit)
    ensures forall j :: 0 <= j < |lit| ==> IsDigit(lit[j]) || lit[j] == '.'
  {
    var d := Digits(lit, 0);
    forall j | 0 <= j < |lit| ensures IsDigit(lit[j]) || lit[j] == '.' {
      if j < d {
        DigitsRun(lit, 0, j);
      } else if j > d {
        DigitsRun(lit, d + 1, j);
      }
    }
  }

  /** Text all of whose characters are digits reads as one number. */
  lemma DigitsAreDecimal(ds: string)
    requires |ds| > 0 && AllDigits(ds)
    ensures IsDecimal(ds)
  {
    DigitsExact(ds, 0, |ds|);
  }

  // ----------------------------------------------------------------- values

  function Pow10(n: nat): (p: nat)
    ensures p > 0
  {
    if n == 0 then 1 else 10 * Pow10(n - 1)
  }

  /** Value of one digit character; a non-digit counts as 0. */
  function DigitValue(c: char): (v: nat)
    ensures v < 10
  {
    if IsDigit(c) then c as int - '0' as int else 0
  }

  /** The digit character of a value below ten. */
  function DigitChar(v: nat): (c: char)
    requires v < 10
    ensures IsDigit(c) && DigitValue(c) == v
  {
    ('0' as int + v) as char
  }

  /** `parseFloat` of a digit string: its value in base ten, leading zeros allowed. */
  function NatValue(ds: string): nat {
    if ds == [] then 0 else NatValue(ds[..|ds| - 1]) * 10 + DigitValue(ds[|ds| - 1])
  }

  /** Value of the digits after a decimal point. */
  function FractionValue(ds: string): real {
    NatValue(ds) as real / Pow10(|ds|) as real
  }

  /** `parseFloat` of a decimal literal, as an exact real. */
  function DecimalValue(lit: string): (v: real)
    ensures v >= 0.0
  {
    var d := Digits(lit, 0);
    NatValue(lit[..d]) as real + (if d < |lit| then FractionValue(lit[d + 1..]) else 0.0)
  }

  /** The value of the digits `s[i..j]`, read in place. */
  function NatAt(s: string, i: nat, j: nat): nat
    requires i <= j <= |s|
    decreases j - i
  {
    if j == i then 0 else NatAt(s, i, j - 1) * 10 + DigitValue(s[j - 1])
  }

  /** The value of the decimal literal `s[i..j]`, read in place. */
  function DecimalAt(s: string, i: nat, j: nat): (v: real)
    requires i <= j <= |s|
    ensures v >= 0.0
  {
    var d := if Digits(s, i) < j - i then Digits(s, i) else j - i;
    NatAt(s, i, i + d) as real + (if i + d < j then NatAt(s, i + d + 1, j) as real / Pow10(j - i - d - 1) as real else 0.0)
  }

  lemma {:induction false} NatAtSlice(s: string, i: nat, j: nat)
    requires i <= j <= |s|
    ensures NatAt(s, i, j) == NatValue(s[i..j])
    decreases j - i
  {
    if j > i {
      NatAtSlice(s, i, j - 1);
      var u := s[i..j];
      assert u[..|u| - 1] == s[i..j - 1];
    }
  }

  lemma DecimalAtSlice(s: string, i: nat, j: nat)
    requires i <= j <= |s|
    ensures DecimalAt(s, i, j) == DecimalValue(s[i..j])
  {
    var u := s[i..j];
    DigitsOfSlice(s, i, j, 0);
    var d := Digits(u, 0);
    NatAtSlice(s, i, i + d);
    assert u[..d] == s[i..i + d];
    if d < |u| {
      NatAtSlice(s, i + d + 1, j);
      assert u[d + 1..] == s[i + d + 1..j];
    }
  }

  /** A value read in place depends only on the characters it reads. */
  lemma NatAtConcat(x: string, t: string, i: nat, j: nat)
    requires i <= j <= |x|
    ensures NatAt(x + t, i, j) == NatAt(x, i, j)
  {
    NatAtSlice(x + t, i, j);
    NatAtSlice(x, i, j);
    assert (x + t)[i..j] == x[i..j];
  }

  lemma DecimalAtConcat(x: string, t: string, i: nat, j: nat)
    requires i <= j <= |x|
    ensures DecimalAt(x + t, i, j) == DecimalAt(x, i, j)
  {
    DecimalAtSlice(x + t, i, j);
    DecimalAtSlice(x, i, j);
    assert (x + t)[i..j] == x[i..j];
  }

  lemma NatAtShift(pre: string, u: string, i: nat, j: nat)
    requires i <= j <= |u|
    ensures NatAt(pre + u, |pre| + i, |pre| + j) == NatAt(u, i, j)
  {
    NatAtSlice(pre + u, |pre| + i, |pre| + j);
    NatAtSlice(u, i, j);
    assert (pre + u)[|pre| + i..|pre| + j] == u[i..j];
  }

  lemma DecimalAtShift(pre: string, u: string, i: nat, j: nat)
    requires i <= j <= |u|
    ensures DecimalAt(pre + u, |pre| + i, |pre| + j) == DecimalAt(u, i, j)
  {
    DecimalAtSlice(pre + u, |pre| + i, |pre| + j);
    DecimalAtSlice(u, i, j);
    assert (pre + u)[|pre| + i..|pre| + j] == u[i..j];
  }

  /** A literal without a fractional part has the value of its digits. */
  lemma DecimalOfDigits(ds: string)
    requires AllDigits(ds)
    ensures DecimalValue(ds) == NatValue(ds) as real
  {
    DigitsExact(ds, 0, |ds|);
    assert ds[..|ds|] == ds;
  }

  // ------------------------------------------------- formatting n / 1000

  /** JavaScript's `String(n)` for a natural number: its decimal digits, no leading zero. */
  function NatToString(n: nat): (s: string)
    ensures |s| > 0 && AllDigits(s)
    ensures NatValue(s) == n
    decreases n
  {
    if n < 10 then [DigitChar(n)]
    else
      var s := NatToString(n / 10) + [DigitChar(n % 10)];
      assert s[..|s| - 1] == NatToString(n / 10);
      s
  }

  /** The three digits of a number below 1000, zero-padded. */
  function Pad3(r: nat): (s: string)
    requires r < 1000
    ensures |s| == 3 && AllDigits(s) && NatValue(s) == r
  {
    var a, b, c := r / 100, r / 10 % 10, r % 10;
    var s := [DigitChar(a), DigitChar(b), DigitChar(c)];
    assert s[..|s| - 1] == [s[0], s[1]] && [s[0], s[1]][..1] == [s[0]] && [s[0]][..0] == [];
    assert NatValue([s[0]]) == a;
    assert NatValue([s[0], s[1]]) == a * 10 + b;
    assert NatValue(s) == (a * 10 + b) * 10 + c;
    assert r / 10 == a * 10 + b && r == r / 10 * 10 + c;
    s
  }

  /** Drops trailing zeros. */
  function TrimZeros(s: string): (t: string)
    ensures |t| <= |s| && t == s[..|t|]
    ensures t == [] || t[|t| - 1] != '0'
    ensures FractionValue(t) == FractionValue(s)
  {
    if s != [] && s[|s| - 1] == '0' then
      var u := s[..|s| - 1];
      FractionDropZero(u);
      assert s == u + ['0'];
      var t := TrimZeros(u);
      assert t == s[..|t|];
      t
    else s
  }

  /** A trailing zero after the point does not change a fraction's value. */
  lemma FractionDropZero(u: string)
    ensures FractionValue(u + ['0']) == FractionValue(u)
  {
    var s := u + ['0'];
    assert s[..|s| - 1] == u;
    var n := NatValue(u) as real;
    var p := Pow10(|u|) as real;
    assert NatValue(s) as real == 10.0 * n;
    assert Pow10(|s|) as real == 10.0 * p;
    assert (10.0 * n) / (10.0 * p) == n / p;
  }

  /** A literal made of an integer part, a point and a fraction part has the value of both. */
  lemma DecimalOfParts(whole: string, frac: string)
    requires |whole| > 0 && AllDigits(whole) && |frac| > 0 && AllDigits(frac)
    ensures IsDecimal(whole + ['.'] + frac)
    ensures DecimalValue(whole + ['.'] + frac) == NatValue(whole) as real + FractionValue(frac)
  {
    var s := whole + ['.'] + frac;
    assert s[..|whole|] == whole && s[|whole|] == '.' && s[|whole| + 1..] == frac;
    DigitsExact(s, 0, |whole|);
    DigitsExact(s, |whole| + 1, |frac|);
  }

  /** The digits after the point of `String(r / 1000)` for 0 < r < 1000. */
  lemma ThousandthsFraction(r: nat)
    requires 0 < r < 1000
    ensures var frac := TrimZeros(Pad3(r));
      |frac| > 0 && AllDigits(frac) && FractionValue(frac) == r as real / 1000.0
  {
    var frac := TrimZeros(Pad3(r));
    assert FractionValue(Pad3(r)) == r as real / 1000.0;
    forall j | 0 <= j < |frac| ensures IsDigit(frac[j]) {
      assert frac[j] == Pad3(r)[j];
    }
  }

  /** A distance of `meters` meters in kilometres. */
  function Kilometres(meters: nat): real {
    meters as real / 1000.0
  }

  /**
   * JavaScript's `String(n / 1000)` for a natural number `n`: the shortest decimal
   * literal of the quotient, e.g. "0.4" for 400 and "1" for 1000.
   */
  function Thousandths(n: nat): (s: string)
    ensures IsDecimal(s)
    ensures DecimalValue(s) == Kilometres(n)
  {
    var whole := NatToString(n / 1000);
    if n % 1000 == 0 then
      DecimalOfDigits(whole);
      DigitsAreDecimal(whole);
      whole
    else
      var frac := TrimZeros(Pad3(n % 1000));
      ThousandthsFraction(n % 1000);
      DecimalOfParts(whole, frac);
      assert n as real == (n / 1000) as real * 1000.0 + (n % 1000) as real;
      whole + ['.'] + frac
  }
}
