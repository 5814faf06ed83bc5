/**
 * `Parse::WrongNumberOfArguments`
 * (lib/error_to_communicate/parse/wrong_number_of_arguments.rb): recognises
 * the arity-mismatch messages of two Ruby interpreters and extracts the
 * number of arguments received and expected.
 *
 * The two patterns are matched by hand, on a message of one line:
 *   MRI / JRuby  `^wrong number of arguments.*?\((\d+) for (\d+)\)$`
 *   Rubinius     `^method '.*?': given (\d+).*? expected (\d+)$`
 */
module ArityParser {
  import opened Wrappers
  import opened Text
  import opened ExceptionInfo

  const MriLead: string := "wrong number of arguments"
  const RbxLead: string := "method '"
  const Given: string := "': given "
  const Expected: string := " expected "
  const ArityExplanation: string := "Wrong number of arguments"

  /** The two captures, `$1.to_i` and `$2.to_i`. */
  datatype Counts = Counts(received: nat, expected: nat)

  /** `exception.message` raises: the object does not respond to `message`. */
  datatype ParseError = NoMessage

  // -----------------------------------------------------------------------
  // Digit runs
  // -----------------------------------------------------------------------

  /** Length of the longest run of digits that ends `s`. */
  function TrailingDigits(s: string): (n: nat)
    ensures n <= |s|
    ensures AllDigits(s[|s| - n..])
    ensures n < |s| ==> !IsDigit(s[|s| - n - 1])
    decreases |s|
  {
    if s == [] || !IsDigit(s[|s| - 1]) then 0
    else
      var init := s[..|s| - 1];
      var n := TrailingDigits(init);
      assert s[|s| - (n + 1)..] == init[|init| - n..] + [s[|s| - 1]];
      n + 1
  }

  /** Length of the longest run of digits that starts `s`. */
  function LeadingDigits(s: string): (n: nat)
    ensures n <= |s|
    ensures AllDigits(s[..n])
    ensures n < |s| ==> !IsDigit(s[n])
    decreases |s|
  {
    if s == [] || !IsDigit(s[0]) then 0
    else
      var n := LeadingDigits(s[1..]);
      assert s[..n + 1] == [s[0]] + s[1..][..n];
      n + 1
  }

  /** Every character of a digit suffix is a digit. */
  lemma DigitInSuffix(s: string, n: nat, k: nat)
    ensures n <= |s| && AllDigits(s[|s| - n..]) && |s| - n <= k < |s| ==> IsDigit(s[k])
  {
    if n <= |s| && |s| - n <= k < |s| {
      assert s[|s| - n..][k - (|s| - n)] == s[k];
    }
  }

  /** Every character of a digit prefix is a digit. */
  lemma DigitInPrefix(s: string, n: nat, k: nat)
    ensures n <= |s| && AllDigits(s[..n]) && k < n ==> IsDigit(s[k])
  {
    if n <= |s| && k < n {
      assert s[..n][k] == s[k];
    }
  }

  /** A run of digits after a non-digit is exactly the trailing run. */
  lemma {:induction false} TrailingDigitsOf(x: string, d: string)
    requires AllDigits(d)
    requires x == [] || !IsDigit(x[|x| - 1])
    ensures TrailingDigits(x + d) == |d|
    decreases |d|
  {
    if d == [] {
      assert x + d == x;
    } else {
      var init := d[..|d| - 1];
      assert (x + d)[..|x + d| - 1] == x + init;
      assert IsDigit(d[|d| - 1]);
      assert AllDigits(init) by {
        forall i | 0 <= i < |init| ensures IsDigit(init[i]) {
          assert init[i] == d[i];
        }
      }
      TrailingDigitsOf(x, init);
    }
  }

  /** A run of digits before a non-digit is exactly the leading run. */
  lemma LeadingDigitsOf(d: string, y: string)
    requires AllDigits(d)
    requires y == [] || !IsDigit(y[0])
    ensures LeadingDigits(d + y) == |d|
  {
    DigitInPrefix(d + y, LeadingDigits(d + y), |d|);
  }

  /** The leading run stops at the first non-digit. */
  lemma LeadingDigitsBound(s: string, k: nat)
    requires k < |s| && !IsDigit(s[k])
    ensures LeadingDigits(s) <= k
  {
    DigitInPrefix(s, LeadingDigits(s), k);
  }

  /** `s` without the suffix `p`, when it ends in `p`. */
  function DropSuffix(s: string, p: string): (r: Option<string>)
    ensures r.Some? <==> EndsWith(s, p)
    ensures r.Some? ==> s == r.value + p
  {
    if EndsWith(s, p) then Some(s[..|s| - |p|]) else None
  }

  lemma DropSuffixOf(a: string, p: string)
    ensures DropSuffix(a + p, p) == Some(a)
  {
    assert (a + p)[|a|..] == p;
    assert (a + p)[..|a|] == a;
  }

  /** A string cut before its longest run of trailing digits. */
  datatype Split = Split(front: string, digits: string)

  function SplitDigits(s: string): (r: Split)
    ensures r.front + r.digits == s
    ensures AllDigits(r.digits)
    ensures r.front == [] || !IsDigit(r.front[|r.front| - 1])
  {
    var k := |s| - TrailingDigits(s);
    CutAt(s, k);
    Split(s[..k], s[k..])
  }

  /** Cutting a string at `k` and putting it back together. */
  lemma CutAt(s: string, k: nat)
    requires k <= |s|
    ensures s[..k] + s[k..] == s
    ensures 0 < k ==> s[..k][k - 1] == s[k - 1]
  {
  }

  lemma SplitDigitsOf(x: string, d: string)
    requires AllDigits(d)
    requires x == [] || !IsDigit(x[|x| - 1])
    ensures SplitDigits(x + d) == Split(x, d)
  {
    TrailingDigitsOf(x, d);
    assert (x + d)[..|x|] == x;
    assert (x + d)[|x|..] == d;
  }

  // -----------------------------------------------------------------------
  // MRI / JRuby: "wrong number of arguments<middle>(<received> for <expected>)"
  // -----------------------------------------------------------------------

  predicate MriShape(m: string, middle: string, received: string, expected: string) {
    && received != [] && AllDigits(received)
    && expected != [] && AllDigits(expected)
    && m == MriLead + middle + "(" + received + " for " + expected + ")"
  }

  /**
   * Peels the pattern off from the right: ")" then the expected digits,
   * " for ", the received digits and "(", which must come after the lead.
   */
  function MatchMri(m: string): Option<Counts> {
    if !StartsWith(m, MriLead) then None
    else
      match DropSuffix(m, ")")
      case None => None
      case Some(body) =>
        var e := SplitDigits(body);
        match DropSuffix(e.front, " for ")
        case None => None
        case Some(beforeFor) =>
          var r := SplitDigits(beforeFor);
          match DropSuffix(r.front, "(")
          case None => None
          case Some(lead) =>
            if e.digits == [] || r.digits == [] || |lead| < |MriLead| then None
            else Some(Counts(DecimalValue(r.digits), DecimalValue(e.digits)))
  }

  /** A message of the MRI shape yields exactly its two numbers. */
  lemma MriComplete(m: string, middle: string, received: string, expected: string)
    requires MriShape(m, middle, received, expected)
    ensures MatchMri(m) == Some(Counts(DecimalValue(received), DecimalValue(expected)))
  {
    var lead := MriLead + middle;
    var open := lead + "(";
    var beforeFor := open + received;
    var beforeExpected := beforeFor + " for ";
    var body := beforeExpected + expected;
    assert m == body + ")";
    assert StartsWith(m, MriLead) by {
      assert m == MriLead + (middle + "(" + received + " for " + expected + ")");
    }
    DropSuffixOf(body, ")");
    SplitDigitsOf(beforeExpected, expected);
    DropSuffixOf(beforeFor, " for ");
    SplitDigitsOf(open, received);
    DropSuffixOf(lead, "(");
  }

  /** Whatever the MRI matcher yields comes from a message of the MRI shape. */
  lemma MriSound(m: string) returns (middle: string, received: string, expected: string)
    requires MatchMri(m).Some?
    ensures MriShape(m, middle, received, expected)
    ensures MatchMri(m) == Some(Counts(DecimalValue(received), DecimalValue(expected)))
  {
    var lead;
    lead, received, expected := MriMatchFacts(m);
    middle := MriShapeOfFacts(m, lead, received, expected);
  }

  /** The pieces the MRI matcher peels off a message it accepts. */
  lemma MriMatchFacts(m: string) returns (lead: string, received: string, expected: string)
    requires MatchMri(m).Some?
    ensures StartsWith(m, MriLead) && |MriLead| <= |lead|
    ensures received != [] && AllDigits(received)
    ensures expected != [] && AllDigits(expected)
    ensures m == lead + "(" + received + " for " + expected + ")"
    ensures MatchMri(m) == Some(Counts(DecimalValue(received), DecimalValue(expected)))
  {
    var body := DropSuffix(m, ")").value;
    var e := SplitDigits(body);
    var beforeFor := DropSuffix(e.front, " for ").value;
    var r := SplitDigits(beforeFor);
    lead := DropSuffix(r.front, "(").value;
    received := r.digits;
    expected := e.digits;
  }

  /** A message that starts with the lead and ends in the counts has the MRI shape. */
  lemma MriShapeOfFacts(m: string, lead: string, received: string, expected: string) returns (middle: string)
    requires StartsWith(m, MriLead) && |MriLead| <= |lead|
    requires received != [] && AllDigits(received)
    requires expected != [] && AllDigits(expected)
    requires m == lead + "(" + received + " for " + expected + ")"
    ensures MriShape(m, middle, received, expected)
  {
    var rest := "(" + received + " for " + expected + ")";
    assert m == lead + rest by {
      ConcatAssoc5(lead, "(", received, " for ", expected, ")");
    }
    middle := lead[|MriLead|..];
    assert lead == MriLead + middle by {
      assert m[..|lead|] == lead;
      assert lead[..|MriLead|] == m[..|MriLead|];
    }
    ConcatAssoc5(MriLead + middle, "(", received, " for ", expected, ")");
  }

  /** Regrouping a concatenation of six pieces. */
  lemma ConcatAssoc5(a: string, b: string, c: string, d: string, e: string, f: string)
    ensures a + b + c + d + e + f == a + (b + c + d + e + f)
  {
  }

  // -----------------------------------------------------------------------
  // Rubinius: "method '<name>': given <received><gap> expected <expected>"
  //
  // The matcher and its proofs are written for any lead, marker and suffix
  // with the few properties of `': given ` and ` expected ` they rely on;
  // the Rubinius pattern is the instance with those three literals.
  // -----------------------------------------------------------------------

  /** `marker` followed by a digit starts at index `j`. */
  predicate MarkerAt(m: string, marker: string, j: nat) {
    j + |marker| < |m| && m[j..j + |marker|] == marker && IsDigit(m[j + |marker|])
  }

  /** The first index at or after `from` where `marker` followed by a digit starts. */
  function FirstMarker(m: string, marker: string, from: nat): (r: Option<nat>)
    ensures r.Some? ==> from <= r.value && MarkerAt(m, marker, r.value)
    ensures r.Some? ==> forall j :: from <= j < r.value ==> !MarkerAt(m, marker, j)
    ensures r.None? ==> forall j :: from <= j ==> !MarkerAt(m, marker, j)
    decreases |m| - from
  {
    if from >= |m| then None
    else if MarkerAt(m, marker, from) then Some(from)
    else FirstMarker(m, marker, from + 1)
  }

  /**
   * What the proofs need of the two separators: neither starts with a
   * digit, the suffix does not end with one, and the marker's first
   * character does not occur again in it, so two markers never overlap.
   */
  predicate Separators(marker: string, suffix: string) {
    && HeadUnique(marker) && suffix != []
    && !IsDigit(marker[0]) && !IsDigit(suffix[0]) && !IsDigit(suffix[|suffix| - 1])
  }

  /** A non-empty string whose first character does not occur again in it. */
  predicate HeadUnique(marker: string) {
    marker != [] && forall i :: 1 <= i < |marker| ==> marker[i] != marker[0]
  }

  /**
   * The shape as the regex reads it: the name is as short as possible (no
   * earlier marker followed by a digit), the received digits are all the
   * digits after the marker, and the expected digits end the message.
   */
  predicate ShapeAround(m: string, lead: string, marker: string, suffix: string,
                        name: string, received: string, gap: string, expected: string) {
    && received != [] && AllDigits(received)
    && expected != [] && AllDigits(expected)
    && (gap == [] || !IsDigit(gap[0]))
    && m == lead + name + marker + received + gap + suffix + expected
    && forall j :: |lead| <= j < |lead| + |name| ==> !MarkerAt(m, marker, j)
  }

  /** Finds the first marker after the lead and reads the counts that follow it. */
  function MatchAround(m: string, lead: string, marker: string, suffix: string): Option<Counts> {
    if !StartsWith(m, lead) then None
    else
      match FirstMarker(m, marker, |lead|)
      case None => None
      case Some(j) => CountsAfter(m, marker, suffix, j)
  }

  /**
   * The digits after the marker at `j`, and the digits that end the
   * message, which must follow the suffix somewhere after the first ones.
   */
  function CountsAfter(m: string, marker: string, suffix: string, j: nat): Option<Counts>
    requires j + |marker| <= |m|
  {
    var after := m[j + |marker|..];
    var n1 := LeadingDigits(after);
    var e := SplitDigits(m);
    match DropSuffix(e.front, suffix)
    case None => None
    case Some(beforeSuffix) =>
      if e.digits == [] || |beforeSuffix| < j + |marker| + n1 then None
      else Some(Counts(DecimalValue(after[..n1]), DecimalValue(e.digits)))
  }

  /** The Rubinius shape. */
  predicate RbxShape(m: string, name: string, received: string, gap: string, expected: string) {
    ShapeAround(m, RbxLead, Given, Expected, name, received, gap, expected)
  }

  /** The Rubinius pattern. */
  function MatchRbx(m: string): Option<Counts> {
    MatchAround(m, RbxLead, Given, Expected)
  }

  lemma RbxSeparators()
    ensures Separators(Given, Expected)
  {
  }

  /** A message of the Rubinius shape yields exactly its two numbers. */
  lemma RbxComplete(m: string, name: string, received: string, gap: string, expected: string)
    requires RbxShape(m, name, received, gap, expected)
    ensures MatchRbx(m) == Some(Counts(DecimalValue(received), DecimalValue(expected)))
  {
    RbxSeparators();
    AroundComplete(m, RbxLead, Given, Expected, name, received, gap, expected);
  }

  /** Whatever the Rubinius matcher yields comes from a message of the Rubinius shape. */
  lemma RbxSound(m: string) returns (name: string, received: string, gap: string, expected: string)
    requires MatchRbx(m).Some?
    ensures RbxShape(m, name, received, gap, expected)
    ensures MatchRbx(m) == Some(Counts(DecimalValue(received), DecimalValue(expected)))
  {
    name, received, gap, expected := AroundSound(m, RbxLead, Given, Expected);
  }

  /**
   * The matcher misses no message the Rubinius regex accepts: any way of
   * reading the message as lead, name, `': given `, digits, anything,
   * ` expected ` and final digits makes the matcher succeed.
   */
  lemma RbxFindsAnyReading(m: string, name: string, received: string, gap: string, expected: string)
    requires received != [] && AllDigits(received)
    requires expected != [] && AllDigits(expected)
    requires m == RbxLead + name + Given + received + gap + Expected + expected
    ensures MatchRbx(m).Some?
  {
    RbxSeparators();
    AroundFindsAnyReading(m, RbxLead, Given, Expected, name, received, gap, expected);
  }

  /** A message of the shape yields exactly its two numbers. */
  lemma AroundComplete(m: string, lead: string, marker: string, suffix: string,
                       name: string, received: string, gap: string, expected: string)
    requires Separators(marker, suffix)
    requires ShapeAround(m, lead, marker, suffix, name, received, gap, expected)
    ensures MatchAround(m, lead, marker, suffix) == Some(Counts(DecimalValue(received), DecimalValue(expected)))
  {
    var p := |lead + name|;
    var front := lead + name + marker + received + gap;
    var s1 := p + |marker|;
    assert && StartsWith(m, lead)
           && FirstMarker(m, marker, |lead|) == Some(p)
           && SplitDigits(m) == Split(front + suffix, expected)
           && s1 + LeadingDigits(m[s1..]) <= |front|
           && m[s1..][..LeadingDigits(m[s1..])] == received by {
      var f := MarkerFound(m, lead, marker, suffix, name, received, gap, expected);
      FirstMarkerIs(m, marker, |lead|, p);
    }
    AroundMatchFromFacts(m, lead, marker, suffix, p, front, received, expected);
  }

  /** A marker with none before it, from `from` on, is the first one. */
  lemma FirstMarkerIs(m: string, marker: string, from: nat, p: nat)
    requires from <= p && MarkerAt(m, marker, p)
    requires forall j :: from <= j < p ==> !MarkerAt(m, marker, j)
    ensures FirstMarker(m, marker, from) == Some(p)
  {
    var r := FirstMarker(m, marker, from);
    assert r.Some?;
    assert !(r.value < p);
  }

  /** Where the marker, the received digits and the suffix of a message of the shape are. */
  lemma MarkerFound(m: string, lead: string, marker: string, suffix: string,
                    name: string, received: string, gap: string, expected: string)
    returns (front: string)
    requires Separators(marker, suffix)
    requires ShapeAround(m, lead, marker, suffix, name, received, gap, expected)
    ensures StartsWith(m, lead)
    ensures MarkerAt(m, marker, |lead + name|)
    ensures front == lead + name + marker + received + gap
    ensures SplitDigits(m) == Split(front + suffix, expected)
    ensures LeadingDigits(m[|lead + name| + |marker|..]) == |received|
    ensures m[|lead + name| + |marker|..][..|received|] == received
  {
    var a := lead + name;
    var p := |a|;
    var tail := gap + suffix + expected;
    var c := received + tail;
    assert m == a + marker + c by {
      Regroup(lead, name, marker, received, gap, suffix, expected);
    }
    Pieces(a, marker, c);
    assert StartsWith(m, lead) by {
      assert m[..|lead|] == m[..p][..|lead|];
    }
    assert m[p + |marker|] == c[0];
    assert tail[0] == (if gap == [] then suffix[0] else gap[0]);
    LeadingDigitsOf(received, tail);
    assert c[..|received|] == received;
    front := a + marker + received + gap;
    assert (front + suffix)[|front + suffix| - 1] == suffix[|suffix| - 1];
    SplitDigitsOf(front + suffix, expected);
  }

  /** The matcher succeeds when its three steps do. */
  lemma AroundMatchFromFacts(m: string, lead: string, marker: string, suffix: string,
                             j: nat, front: string, received: string, expected: string)
    requires StartsWith(m, lead)
    requires FirstMarker(m, marker, |lead|) == Some(j)
    requires SplitDigits(m) == Split(front + suffix, expected) && expected != []
    requires j + |marker| + LeadingDigits(m[j + |marker|..]) <= |front|
    requires m[j + |marker|..][..LeadingDigits(m[j + |marker|..])] == received
    ensures MatchAround(m, lead, marker, suffix) == Some(Counts(DecimalValue(received), DecimalValue(expected)))
  {
    CountsAfterOf(m, marker, suffix, j, front, expected);
  }

  /** The counts read after the marker at `j`, when the message ends in the suffix and digits. */
  lemma CountsAfterOf(m: string, marker: string, suffix: string, j: nat, front: string, expected: string)
    requires j + |marker| <= |m|
    requires SplitDigits(m) == Split(front + suffix, expected) && expected != []
    requires j + |marker| + LeadingDigits(m[j + |marker|..]) <= |front|
    ensures CountsAfter(m, marker, suffix, j) ==
              Some(Counts(DecimalValue(m[j + |marker|..][..LeadingDigits(m[j + |marker|..])]), DecimalValue(expected)))
  {
    DropSuffixOf(front, suffix);
  }

  /** What a match establishes about the message. */
  lemma AroundMatchFacts(m: string, lead: string, marker: string, suffix: string)
    returns (j: nat, n1: nat, front: string, expected: string)
    requires MatchAround(m, lead, marker, suffix).Some?
    ensures StartsWith(m, lead)
    ensures MarkerAt(m, marker, j) && |lead| <= j
    ensures forall k :: |lead| <= k < j ==> !MarkerAt(m, marker, k)
    ensures n1 == LeadingDigits(m[j + |marker|..])
    ensures m == front + suffix + expected
    ensures expected != [] && AllDigits(expected)
    ensures j + |marker| + n1 <= |front|
    ensures MatchAround(m, lead, marker, suffix) ==
              Some(Counts(DecimalValue(m[j + |marker|..][..n1]), DecimalValue(expected)))
  {
    j := FirstMarker(m, marker, |lead|).value;
    assert MatchAround(m, lead, marker, suffix) == CountsAfter(m, marker, suffix, j);
    n1, front, expected := CountsAfterFacts(m, marker, suffix, j);
  }

  /** What reading counts after the marker at `j` establishes about the message. */
  lemma CountsAfterFacts(m: string, marker: string, suffix: string, j: nat)
    returns (n1: nat, front: string, expected: string)
    requires j + |marker| <= |m|
    requires CountsAfter(m, marker, suffix, j).Some?
    ensures n1 == LeadingDigits(m[j + |marker|..])
    ensures m == front + suffix + expected
    ensures expected != [] && AllDigits(expected)
    ensures j + |marker| + n1 <= |front|
    ensures CountsAfter(m, marker, suffix, j) ==
              Some(Counts(DecimalValue(m[j + |marker|..][..n1]), DecimalValue(expected)))
  {
    n1 := LeadingDigits(m[j + |marker|..]);
    var e := SplitDigits(m);
    front := DropSuffix(e.front, suffix).value;
    expected := e.digits;
  }

  /** Whatever the matcher yields comes from a message of the shape. */
  lemma AroundSound(m: string, lead: string, marker: string, suffix: string)
    returns (name: string, received: string, gap: string, expected: string)
    requires MatchAround(m, lead, marker, suffix).Some?
    ensures ShapeAround(m, lead, marker, suffix, name, received, gap, expected)
    ensures MatchAround(m, lead, marker, suffix) == Some(Counts(DecimalValue(received), DecimalValue(expected)))
  {
    var j, n1, front, exp := AroundMatchFacts(m, lead, marker, suffix);
    name, received, gap := ShapeOfFacts(m, lead, marker, suffix, j, n1, front, exp);
    expected := exp;
  }

  /** The pieces of a message that meets the facts a match establishes. */
  lemma ShapeOfFacts(m: string, lead: string, marker: string, suffix: string,
                     j: nat, n1: nat, front: string, expected: string)
    returns (name: string, received: string, gap: string)
    requires StartsWith(m, lead) && |lead| <= j
    requires MarkerAt(m, marker, j) && forall k :: |lead| <= k < j ==> !MarkerAt(m, marker, k)
    requires n1 == LeadingDigits(m[j + |marker|..])
    requires m == front + suffix + expected
    requires expected != [] && AllDigits(expected)
    requires j + |marker| + n1 <= |front|
    ensures received == m[j + |marker|..][..n1]
    ensures ShapeAround(m, lead, marker, suffix, name, received, gap, expected)
  {
    var s1 := j + |marker|;
    name := m[|lead|..j];
    received := m[s1..][..n1];
    gap := front[s1 + n1..];
    DigitRunAt(m, s1, n1);
    RunEndsAt(m, front, s1, n1);
    Reassemble(m, lead, marker, suffix, front, expected, j, n1);
  }

  /** The run of digits that starts at a digit is not empty. */
  lemma DigitRunAt(m: string, s: nat, n: nat)
    requires s < |m| && IsDigit(m[s])
    requires n == LeadingDigits(m[s..])
    ensures m[s..][..n] != [] && AllDigits(m[s..][..n])
  {
    assert m[s..][0] == m[s];
  }

  /** What follows a maximal run of digits inside a prefix does not start with a digit. */
  lemma RunEndsAt(m: string, front: string, s: nat, n: nat)
    requires |front| <= |m| && m[..|front|] == front
    requires s <= |m| && n == LeadingDigits(m[s..]) && s + n <= |front|
    ensures var rest := front[s + n..]; rest == [] || !IsDigit(rest[0])
  {
    if s + n < |front| {
      assert front[s + n..][0] == front[s + n] == m[s + n] == m[s..][n];
    }
  }

  /**
   * The matcher misses no reading of the message as lead, name, marker,
   * digits, anything, suffix and final digits.
   */
  lemma AroundFindsAnyReading(m: string, lead: string, marker: string, suffix: string,
                              name: string, received: string, gap: string, expected: string)
    requires Separators(marker, suffix)
    requires received != [] && AllDigits(received)
    requires expected != [] && AllDigits(expected)
    requires m == lead + name + marker + received + gap + suffix + expected
    ensures MatchAround(m, lead, marker, suffix).Some?
  {
    var p := |lead + name|;
    var front := lead + name + marker + received + gap;
    PlacesOfReading(m, lead, marker, suffix, name, received, gap, expected);
    var j, digits := ReadingFacts(m, lead, marker, suffix, p, front, expected);
    AroundMatchFromFacts(m, lead, marker, suffix, j, front, digits, expected);
  }

  /** Where the lead, the marker and the suffix of a message read as the pattern are. */
  lemma PlacesOfReading(m: string, lead: string, marker: string, suffix: string,
                        name: string, received: string, gap: string, expected: string)
    requires received != [] && AllDigits(received)
    requires m == lead + name + marker + received + gap + suffix + expected
    ensures StartsWith(m, lead) && MarkerAt(m, marker, |lead + name|)
    ensures m == (lead + name + marker + received + gap) + suffix + expected
    ensures |lead + name| + |marker| <= |lead + name + marker + received + gap|
  {
    var a := lead + name;
    var p := |a|;
    var c := received + (gap + suffix + expected);
    assert m == a + marker + c by {
      Regroup(lead, name, marker, received, gap, suffix, expected);
    }
    Pieces(a, marker, c);
    assert m[..|lead|] == m[..p][..|lead|];
    assert m[p + |marker|] == c[0];
  }

  /**
   * What the three steps of the matcher find in a message with a marker at
   * `p` and the suffix and final digits after `front`.
   */
  lemma ReadingFacts(m: string, lead: string, marker: string, suffix: string,
                     p: nat, front: string, expected: string)
    returns (j: nat, digits: string)
    requires Separators(marker, suffix)
    requires expected != [] && AllDigits(expected)
    requires StartsWith(m, lead) && |lead| <= p && MarkerAt(m, marker, p)
    requires m == front + suffix + expected && p + |marker| <= |front|
    ensures StartsWith(m, lead)
    ensures FirstMarker(m, marker, |lead|) == Some(j)
    ensures SplitDigits(m) == Split(front + suffix, expected)
    ensures j + |marker| + LeadingDigits(m[j + |marker|..]) <= |front|
    ensures m[j + |marker|..][..LeadingDigits(m[j + |marker|..])] == digits
  {
    j := FirstMarker(m, marker, |lead|).value;
    SplitAfterSuffix(front, suffix, expected);
    DigitsStopBeforeSuffix(m, marker, suffix, front, expected, j, p);
    var s1 := j + |marker|;
    digits := m[s1..][..LeadingDigits(m[s1..])];
  }

  /** The trailing digits of a message that ends in the suffix and digits are those digits. */
  lemma SplitAfterSuffix(front: string, suffix: string, expected: string)
    requires suffix != [] && !IsDigit(suffix[|suffix| - 1])
    requires AllDigits(expected)
    ensures SplitDigits(front + suffix + expected) == Split(front + suffix, expected)
  {
    assert (front + suffix)[|front| + |suffix| - 1] == suffix[|suffix| - 1];
    SplitDigitsOf(front + suffix, expected);
  }

  /**
   * The digits read after the first marker stop before the suffix: at the
   * marker that comes later, or at the suffix itself.
   */
  lemma DigitsStopBeforeSuffix(m: string, marker: string, suffix: string, front: string, expected: string,
                               j: nat, p: nat)
    requires Separators(marker, suffix)
    requires m == front + suffix + expected
    requires MarkerAt(m, marker, j) && MarkerAt(m, marker, p) && j <= p
    requires p + |marker| <= |front|
    ensures j + |marker| + LeadingDigits(m[j + |marker|..]) <= |front|
  {
    if j < p {
      StopAtLaterMarker(m, marker, j, p);
    } else {
      StopAtSuffix(m, front, suffix, expected, j + |marker|);
    }
  }

  /** The digits after the marker at `j` end before a later marker at `p`. */
  lemma StopAtLaterMarker(m: string, marker: string, j: nat, p: nat)
    requires HeadUnique(marker) && !IsDigit(marker[0])
    requires MarkerAt(m, marker, j) && j < p
    requires p + |marker| <= |m| && m[p..p + |marker|] == marker
    ensures j + |marker| + LeadingDigits(m[j + |marker|..]) <= p
  {
    MarkersApart(m, marker, j, p);
    CharOfSlice(m, p, p + |marker|, p);
    NonDigitStops(m, j + |marker|, p);
  }

  /** Digits starting inside `front` end before the suffix that follows it. */
  lemma StopAtSuffix(m: string, front: string, suffix: string, rest: string, from: nat)
    requires m == front + suffix + rest && suffix != [] && !IsDigit(suffix[0])
    requires from <= |front|
    ensures from + LeadingDigits(m[from..]) <= |front|
  {
    assert m[|front|] == suffix[0];
    NonDigitStops(m, from, |front|);
  }

  /** A run of digits starting at `from` ends at the latest at the non-digit at `q`. */
  lemma NonDigitStops(m: string, from: nat, q: nat)
    requires from <= q < |m| && !IsDigit(m[q])
    ensures from + LeadingDigits(m[from..]) <= q
  {
    assert m[from..][q - from] == m[q];
    LeadingDigitsBound(m[from..], q - from);
  }

  /** An element of a slice is the element of the whole at the shifted index. */
  lemma CharOfSlice(s: string, i: nat, j: nat, k: nat)
    ensures i <= k < j <= |s| ==> s[i..j][k - i] == s[k]
  {
  }

  /** Two occurrences of the marker never overlap. */
  lemma MarkersApart(m: string, marker: string, j: nat, p: nat)
    requires HeadUnique(marker)
    requires MarkerAt(m, marker, j) && j < p
    requires p + |marker| <= |m| && m[p..p + |marker|] == marker
    ensures j + |marker| <= p
  {
    CharOfSlice(m, p, p + |marker|, p);
    CharOfSlice(m, j, j + |marker|, p);
  }

  /** Regrouping a concatenation of seven pieces around the third. */
  lemma Regroup(a: string, b: string, c: string, d: string, e: string, f: string, g: string)
    ensures a + b + c + d + e + f + g == (a + b) + c + (d + (e + f + g))
  {
  }

  /** The three pieces of a concatenation, recovered by slicing. */
  lemma Pieces(a: string, b: string, c: string)
    ensures (a + b + c)[..|a|] == a
    ensures (a + b + c)[|a|..|a| + |b|] == b
    ensures (a + b + c)[|a| + |b|..] == c
  {
  }

  /**
   * A message cut at the lead, at the index `j` of a marker, and after the
   * `n` characters that follow the marker, put back together.
   */
  lemma Reassemble(m: string, lead: string, marker: string, suffix: string, front: string, last: string, j: nat, n: nat)
    requires m == front + suffix + last
    requires |lead| <= j && j + |marker| + n <= |front|
    requires m[..|lead|] == lead && m[j..j + |marker|] == marker
    ensures front[j + |marker| + n..] == m[j + |marker| + n..|front|]
    ensures m == lead + m[|lead|..j] + marker + m[j + |marker|..][..n] + front[j + |marker| + n..] + suffix + last
  {
    var k := j + |marker| + n;
    assert m[..|front|] == front;
    PrefixPieces(m, |lead|, j, j + |marker|, k);
    assert m[j + |marker|..][..n] == m[j + |marker|..k];
    assert front == m[..k] + front[k..];
  }

  /** A prefix cut into four consecutive slices. */
  lemma PrefixPieces(s: string, i: nat, j: nat, k: nat, l: nat)
    requires i <= j <= k <= l <= |s|
    ensures s[..l] == s[..i] + s[i..j] + s[j..k] + s[k..l]
  {
  }

  // -----------------------------------------------------------------------
  // extract_from, parse?, parse
  // -----------------------------------------------------------------------

  /** The two interpreters' messages start differently, so at most one pattern applies. */
  lemma PatternsExclusive(m: string)
    ensures !(MatchMri(m).Some? && MatchRbx(m).Some?)
  {

  }

  /** `extract_from`: the MRI pattern first, then the Rubinius one; `None` is Ruby's nil. */
  function ExtractFrom(m: string): (r: Option<Counts>)
    ensures r.None? <==> MatchMri(m).None? && MatchRbx(m).None?
    ensures MatchMri(m).Some? ==> r == MatchMri(m)
    ensures MatchRbx(m).Some? ==> r == MatchRbx(m)
  {
    PatternsExclusive(m);
    if MatchMri(m).Some? then MatchMri(m) else MatchRbx(m)
  }

  /** `parse?`: the exception has a message, and the message matches one of the patterns. */
  predicate ParseQ(x: RawException) {
    x.message.Some? && ExtractFrom(x.message.value).Some?
  }

  /**
   * `parse`: an arity exception info; the backtrace parser is not part of
   * this model and is a parameter. Without `parse?` first, a message that
   * matches neither pattern leaves both counts nil.
   */
  function Parse(x: RawException, parseBacktrace: RawException -> seq<Location>): (r: Result<ExceptionInfo, ParseError>)
    ensures x.message.None? <==> r.Err?
    ensures r.Ok? ==> && r.value.exception == x
                      && r.value.classname == x.className
                      && r.value.explanation == ArityExplanation
                      && r.value.backtrace == parseBacktrace(x)
                      && r.value.detail.WrongNumberOfArguments?
    ensures ParseQ(x) ==>
              var c := ExtractFrom(x.message.value).value;
              r.Ok? && r.value.detail == WrongNumberOfArguments(Some(c.expected), Some(c.received))
    ensures x.message.Some? && !ParseQ(x) ==> r.Ok? && r.value.detail == WrongNumberOfArguments(None, None)
  {
    match x.message
    case None => Err(NoMessage)
    case Some(m) =>
      var counts := ExtractFrom(m);
      var detail :=
        if counts.Some? then WrongNumberOfArguments(Some(counts.value.expected), Some(counts.value.received))
        else WrongNumberOfArguments(None, None);
      Ok(ExceptionInfo(x, x.className, ArityExplanation, parseBacktrace(x), detail))
  }

  /** An MRI message parses to its received and expected counts. */
  lemma ParsesMriMessage(x: RawException, parseBacktrace: RawException -> seq<Location>,
                         middle: string, received: string, expected: string)
    requires x.message.Some? && MriShape(x.message.value, middle, received, expected)
    ensures ParseQ(x)
    ensures Parse(x, parseBacktrace).Ok?
    ensures Parse(x, parseBacktrace).value.detail ==
              WrongNumberOfArguments(Some(DecimalValue(expected)), Some(DecimalValue(received)))
  {
    MriComplete(x.message.value, middle, received, expected);
  }

  /** A Rubinius message parses to its received and expected counts. */
  lemma ParsesRbxMessage(x: RawException, parseBacktrace: RawException -> seq<Location>,
                         name: string, received: string, gap: string, expected: string)
    requires x.message.Some? && RbxShape(x.message.value, name, received, gap, expected)
    ensures ParseQ(x)
    ensures Parse(x, parseBacktrace).Ok?
    ensures Parse(x, parseBacktrace).value.detail ==
              WrongNumberOfArguments(Some(DecimalValue(expected)), Some(DecimalValue(received)))
  {
    RbxComplete(x.message.value, name, received, gap, expected);
  }

  /** What `parse?` accepts has one of the two shapes. */
  lemma ParseQHasShape(x: RawException)
    requires ParseQ(x)
    ensures var m := x.message.value;
            || (exists middle, received, expected :: MriShape(m, middle, received, expected))
            || (exists name, received, gap, expected :: RbxShape(m, name, received, gap, expected))
  {
    var m := x.message.value;
    if MatchMri(m).Some? {
      var middle, received, expected := MriSound(m);
    } else {
      var name, received, gap, expected := RbxSound(m);
    }
  }

  /** Counts written with `to_s` into an MRI message are read back unchanged. */
  lemma CountsRoundTrip(received: nat, expected: nat)
    ensures MatchMri(MriLead + " (" + NatToString(received) + " for " + NatToString(expected) + ")")
              == Some(Counts(received, expected))
  {
    var m := MriLead + " (" + NatToString(received) + " for " + NatToString(expected) + ")";
    assert m == MriLead + " " + "(" + NatToString(received) + " for " + NatToString(expected) + ")";
    MriComplete(m, " ", NatToString(received), NatToString(expected));
    NatToStringRoundTrip(received);
    NatToStringRoundTrip(expected);
  }

  /**
   * Counts written with `to_s` into a Rubinius message are read back
   * unchanged, for any method name without an apostrophe.
   */
  lemma RbxCountsRoundTrip(name: string, received: nat, gap: string, expected: nat)
    requires '\'' !in name
    requires gap == [] || !IsDigit(gap[0])
    ensures ExtractFrom(RbxLead + name + Given + NatToString(received) + gap + Expected + NatToString(expected))
              == Some(Counts(received, expected))
  {
    var m := RbxLead + name + Given + NatToString(received) + gap + Expected + NatToString(expected);
    NameWithoutApostropheIsLazy(m, name, NatToString(received), gap, NatToString(expected));
    RbxComplete(m, name, NatToString(received), gap, NatToString(expected));
    NatToStringRoundTrip(received);
    NatToStringRoundTrip(expected);
  }

  /** A method name without an apostrophe holds no `': given `. */
  lemma NameWithoutApostropheIsLazy(m: string, name: string, received: string, gap: string, expected: string)
    requires '\'' !in name
    requires m == RbxLead + name + Given + received + gap + Expected + expected
    ensures forall j :: |RbxLead| <= j < |RbxLead| + |name| ==> !MarkerAt(m, Given, j)
  {
    var a := RbxLead + name;
    var c := received + (gap + Expected + expected);
    assert m == a + Given + c by {
      Regroup(RbxLead, name, Given, received, gap, Expected, expected);
    }
    Pieces(a, Given, c);
    forall j | |RbxLead| <= j < |a| ensures !MarkerAt(m, Given, j) {
      CharOfSlice(m, 0, |a|, j);
      assert a[j] == name[j - |RbxLead|];
      CharOfSlice(m, j, j + |Given|, j);
    }
  }
}
