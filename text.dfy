/**
 * The few pieces of Ruby's String and Array behaviour that the core relies
 * on: `Array#join("")`, `String#lines`, `chomp`, `ljust`, `Integer#to_s`
 * and `String#to_i` on digit strings.
 */
module Text {

  /** `Array#join("")`: the concatenation of the pieces, in order. */
  function Join(ls: seq<string>): (s: string)
    ensures ls == [] ==> s == []
  {
    if ls == [] then [] else ls[0] + Join(ls[1..])
  }

  lemma {:induction false} JoinAppend(a: seq<string>, b: seq<string>)
    ensures Join(a + b) == Join(a) + Join(b)
  {
    if a == [] {
      assert a + b == b;
    } else {
      assert (a + b)[0] == a[0];
      assert (a + b)[1..] == a[1..] + b;
      JoinAppend(a[1..], b);
    }
  }

  // ---------------------------------------------------------------------
  // Lines
  // ---------------------------------------------------------------------

  predicate EndsWithNewline(l: string) {
    |l| > 0 && l[|l| - 1] == '\n'
  }

  /** One element of `String#lines`: non-empty, and a '\n' only at its end. */
  predicate IsLine(l: string) {
    l != [] && forall i :: 0 <= i < |l| - 1 ==> l[i] != '\n'
  }

  /** What `String#lines` can return: lines, each but the last ending in '\n'. */
  predicate IsLineSeq(ls: seq<string>) {
    && (forall i :: 0 <= i < |ls| ==> IsLine(ls[i]))
    && (forall i :: 0 <= i < |ls| - 1 ==> EndsWithNewline(ls[i]))
  }

  /** Length of the first line of `s`, its terminating '\n' included. */
  function FirstLineLength(s: string): (n: nat)
    requires s != []
    ensures 1 <= n <= |s|
    ensures forall i :: 0 <= i < n - 1 ==> s[i] != '\n'
    ensures n < |s| ==> s[n - 1] == '\n'
  {
    if s[0] == '\n' || |s| == 1 then 1 else 1 + FirstLineLength(s[1..])
  }

  /**
   * `String#lines`: splits after every '\n', keeping the separators; the
   * empty string has no lines. Joining the lines gives the text back.
   */
  function Lines(s: string): (ls: seq<string>)
    ensures Join(ls) == s
    ensures IsLineSeq(ls)
    ensures s == [] <==> ls == []
    decreases |s|
  {
    if s == [] then []
    else
      var n := FirstLineLength(s);
      var rest := Lines(s[n..]);
      assert ([s[..n]] + rest)[1..] == rest;
      assert s[..n] + s[n..] == s;
      ConsLineSeq(s[..n], rest);
      [s[..n]] + rest
  }

  /** A line put before a line sequence gives a line sequence, if it ends in '\n' when more follow. */
  lemma ConsLineSeq(l: string, rest: seq<string>)
    requires IsLine(l) && IsLineSeq(rest)
    requires rest != [] ==> EndsWithNewline(l)
    ensures IsLineSeq([l] + rest)
  {
    var ls := [l] + rest;
    forall i | 1 <= i < |ls| ensures ls[i] == rest[i - 1] {
    }
  }

  lemma {:induction false} FirstLineOfLine(a: string, b: string)
    requires IsLine(a)
    requires EndsWithNewline(a) || b == []
    ensures FirstLineLength(a + b) == |a|
    decreases |a|
  {
    if |a| > 1 {
      assert a[0] != '\n';
      assert (a + b)[1..] == a[1..] + b;
      FirstLineOfLine(a[1..], b);
    }
  }

  /** Splitting a join of lines gives back exactly those lines. */
  lemma {:induction false} LinesOfJoin(ls: seq<string>)
    requires IsLineSeq(ls)
    ensures Lines(Join(ls)) == ls
  {
    if ls != [] {
      var s := Join(ls);
      assert s == ls[0] + Join(ls[1..]);
      assert |ls| > 1 ==> EndsWithNewline(ls[0]);
      assert |ls| == 1 ==> Join(ls[1..]) == [];
      FirstLineOfLine(ls[0], Join(ls[1..]));
      var n := FirstLineLength(s);
      assert s[..n] == ls[0];
      assert s[n..] == Join(ls[1..]);
      assert IsLineSeq(ls[1..]) by {
        forall i | 0 <= i < |ls| - 1 ensures IsLine(ls[1..][i]) {
          assert ls[1..][i] == ls[i + 1];
        }
        forall i | 0 <= i < |ls| - 2 ensures EndsWithNewline(ls[1..][i]) {
          assert ls[1..][i] == ls[i + 1];
        }
      }
      LinesOfJoin(ls[1..]);
    }
  }

  /** A contiguous run of lines is itself a line sequence. */
  lemma SliceIsLineSeq(ls: seq<string>, i: nat, j: nat)
    requires IsLineSeq(ls)
    requires i <= j <= |ls|
    ensures IsLineSeq(ls[i..j])
  {
    forall k | 0 <= k < j - i ensures IsLine(ls[i..j][k]) {
      assert ls[i..j][k] == ls[i + k];
    }
    forall k | 0 <= k < j - i - 1 ensures EndsWithNewline(ls[i..j][k]) {
      assert ls[i..j][k] == ls[i + k];
    }
  }

  // ---------------------------------------------------------------------
  // chomp, ljust, predicates on prefixes
  // ---------------------------------------------------------------------

  predicate StartsWith(s: string, p: string) {
    |p| <= |s| && s[..|p|] == p
  }

  predicate EndsWith(s: string, p: string) {
    |p| <= |s| && s[|s| - |p|..] == p
  }

  predicate EndsWithReturn(l: string) {
    |l| > 0 && l[|l| - 1] == '\r'
  }

  /**
   * `String#chomp`: drops exactly one line terminator from the end, the
   * longest of "\r\n", "\n" and "\r" that ends the line, and nothing else.
   */
  function Chomp(l: string): (r: string)
    ensures StartsWith(l, r)
    ensures EndsWith(l, "\r\n") ==> |r| == |l| - 2
    ensures !EndsWith(l, "\r\n") && (EndsWithNewline(l) || EndsWithReturn(l)) ==> |r| == |l| - 1
    ensures !EndsWithNewline(l) && !EndsWithReturn(l) ==> r == l
    ensures IsLine(l) ==> '\n' !in r
  {
    var n := if EndsWith(l, "\r\n") then 2
             else if EndsWithNewline(l) || EndsWithReturn(l) then 1
             else 0;
    assert n == 2 ==> EndsWithNewline(l) by {
      if n == 2 {
        assert l[|l| - 1] == l[|l| - 2..][1];
      }
    }
    PrefixOfLine(l, |l| - n);
    l[..|l| - n]
  }

  /** A prefix of a line holds no '\n', unless it is a whole line that ends in one. */
  lemma PrefixOfLine(l: string, k: int)
    ensures IsLine(l) && 0 <= k <= |l| && (k == |l| ==> !EndsWithNewline(l)) ==> '\n' !in l[..k]
  {
    if IsLine(l) && 0 <= k <= |l| && (k == |l| ==> !EndsWithNewline(l)) {
      forall i | 0 <= i < k ensures l[..k][i] != '\n' {
        assert l[..k][i] == l[i];
      }
    }
  }

  function Spaces(n: nat): (r: string)
    ensures |r| == n && forall i :: 0 <= i < n ==> r[i] == ' '
  {
    if n == 0 then [] else Spaces(n - 1) + " "
  }

  /** `String#ljust(w)`: pads with spaces on the right up to width `w`. */
  function LJust(s: string, w: int): (r: string)
    ensures |r| == if |s| < w then w else |s|
    ensures StartsWith(r, s)
    ensures forall i :: |s| <= i < |r| ==> r[i] == ' '
  {
    if |s| < w then s + Spaces(w - |s|) else s
  }

  // ---------------------------------------------------------------------
  // Decimal numbers
  // ---------------------------------------------------------------------

  predicate IsDigit(c: char) {
    '0' <= c <= '9'
  }

  predicate AllDigits(s: string) {
    forall i :: 0 <= i < |s| ==> IsDigit(s[i])
  }

  function DigitValue(c: char): (d: nat)
    requires IsDigit(c)
    ensures d < 10
  {
    (c - '0') as nat
  }

  function DigitChar(d: nat): (c: char)
    requires d < 10
    ensures IsDigit(c) && DigitValue(c) == d
  {
    ('0' as int + d) as char
  }

  /** `String#to_i` on a string of decimal digits. */
  function DecimalValue(s: string): nat
    requires AllDigits(s)
  {
    if s == [] then 0 else DecimalValue(s[..|s| - 1]) * 10 + DigitValue(s[|s| - 1])
  }

  /** `Integer#to_s` on a non-negative integer: no leading zero, except for 0 itself. */
  function NatToString(n: nat): (s: string)
    ensures |s| >= 1 && AllDigits(s)
    ensures n == 0 ==> s == "0"
    ensures n > 0 ==> s[0] != '0'
  {
    if n < 10 then [DigitChar(n)] else NatToString(n / 10) + [DigitChar(n % 10)]
  }

  /** `to_i` reads back what `to_s` writes. */
  lemma {:induction false} NatToStringRoundTrip(n: nat)
    ensures DecimalValue(NatToString(n)) == n
  {
    if n >= 10 {
      var s := NatToString(n);
      assert s[..|s| - 1] == NatToString(n / 10);
      NatToStringRoundTrip(n / 10);
    }
  }

  /**
   * `Integer#to_s` on any integer: the decimal digits of its magnitude,
   * without a leading zero, after a '-' when it is negative.
   */
  function IntToString(i: int): (s: string)
    ensures i >= 0 ==> AllDigits(s) && DecimalValue(s) == i
    ensures i < 0 ==> |s| >= 2 && s[0] == '-' && AllDigits(s[1..]) && DecimalValue(s[1..]) == -i
    ensures var digits := if i < 0 then s[1..] else s;
            digits != [] && (|digits| == 1 || digits[0] != '0')
  {
    if i < 0 then
      var d := NatToString(-i);
      NatToStringRoundTrip(-i);
      assert ("-" + d)[1..] == d;
      "-" + d
    else
      NatToStringRoundTrip(i);
      NatToString(i)
  }

  /** On a non-negative integer `to_s` is the digits alone. */
  lemma IntToStringOfNat(i: int)
    ensures i >= 0 ==> IntToString(i) == NatToString(i)
  {
  }

  /** A larger number never has fewer digits. */
  lemma {:induction false} DigitsMonotone(a: nat, b: nat)
    requires a <= b
    ensures |NatToString(a)| <= |NatToString(b)|
  {
    if a >= 10 {
      DigitsMonotone(a / 10, b / 10);
    }
  }
}
