/**
 * The text transforms of `FormatTerminal::Code` (lib/error_to_communicate/
 * format_terminal.rb): slicing the file's lines, removing the shared
 * indentation, numbering the lines and appending the inline message.
 */
module CodeLines {
  import opened Wrappers
  import opened Text
  import opened Theme

  /** The ways rendering a code window can raise. */
  datatype CodeError =
    | NilSlice          // `lines[start..end]` is nil: the window starts past the last line
    | NoLineAtOffset    // `lines[offset]` is nil
    | ChompReturnedNil  // `chomp!` left the line unchanged and returned nil
    | MissingEmphasis   // `fetch(:emphasis)` found no such key

  // ---------------------------------------------------------------------
  // Ruby array indexing and slicing
  // ---------------------------------------------------------------------

  /** `Array#[]` with an integer index: negative indices count from the end. */
  function RubyIndex(n: nat, i: int): (r: Option<nat>)
    ensures r.Some? <==> -(n as int) <= i < n
    ensures r.Some? ==> r.value < n
    ensures r.Some? && i >= 0 ==> r.value == i
    ensures r.Some? && i < 0 ==> r.value == n + i
  {
    if 0 <= i < n then Some(i) else if -(n as int) <= i < 0 then Some(n + i) else None
  }

  /**
   * `Array#[]` with an inclusive range `s..e` of non-negative bounds: nil
   * when `s` is past the end, otherwise the elements from `s` up to `e`
   * that exist.
   */
  function RubySlice(a: seq<string>, s: nat, e: nat): (r: Option<seq<string>>)
    ensures r.None? <==> s > |a|
    ensures r.Some? ==> |r.value| == (if e < s then 0 else if e < |a| then e - s + 1 else |a| - s)
    ensures r.Some? ==> forall k :: 0 <= k < |r.value| ==> r.value[k] == a[s + k]
  {
    if s > |a| then None
    else if e < s then Some([])
    else Some(a[s..if e < |a| then e + 1 else |a|])
  }

  // ---------------------------------------------------------------------
  // remove_indentation
  // ---------------------------------------------------------------------

  /** The characters of the pattern `[ \r\t]`. */
  predicate IsIndentChar(c: char) {
    c == ' ' || c == '\r' || c == '\t'
  }

  predicate IsIndent(w: string) {
    forall i :: 0 <= i < |w| ==> IsIndentChar(w[i])
  }

  /** What `^[ \r\t]*` matches at the start of a line: its longest indentation prefix. */
  function LeadingRun(l: string): (w: string)
    ensures StartsWith(l, w) && IsIndent(w)
    ensures |w| < |l| ==> !IsIndentChar(l[|w|])
  {
    if l != [] && IsIndentChar(l[0]) then [l[0]] + LeadingRun(l[1..]) else []
  }

  /** The index that `min_by(&:length)` picks: the first of the shortest. */
  function FirstShortest(runs: seq<string>): (i: nat)
    requires runs != []
    ensures i < |runs|
    ensures forall j :: 0 <= j < |runs| ==> |runs[i]| <= |runs[j]|
    ensures forall j :: 0 <= j < i ==> |runs[i]| < |runs[j]|
  {
    if |runs| == 1 then 0
    else
      var k := FirstShortest(runs[1..]) + 1;
      assert runs[k] == runs[1..][k - 1];
      assert forall j :: 1 <= j < |runs| ==> runs[j] == runs[1..][j - 1];
      if |runs[0]| <= |runs[k]| then 0 else k
  }

  /** The indentation `remove_indentation` strips: the first shortest leading run. */
  function Indentation(ls: seq<string>): (w: string)
    ensures IsIndent(w)
    ensures ls == [] ==> w == []
    // `min_by` keeps the first of several equally short runs
    ensures ls != [] ==> exists i :: 0 <= i < |ls| && w == LeadingRun(ls[i]) &&
                                     forall j :: 0 <= j < i ==> |w| < |LeadingRun(ls[j])|
    ensures forall i :: 0 <= i < |ls| ==> |w| <= |LeadingRun(ls[i])|
  {
    if ls == [] then []
    else
      var runs := seq(|ls|, i requires 0 <= i < |ls| => LeadingRun(ls[i]));
      var k := FirstShortest(runs);
      assert forall i :: 0 <= i < |ls| ==> runs[i] == LeadingRun(ls[i]);
      runs[k]
  }

  /** One line of `gsub(/^#{indentation}/, "")`. */
  function StripPrefix(l: string, w: string): string {
    if StartsWith(l, w) then l[|w|..] else l
  }

  /** Strips the shared indentation from every line that starts with it. */
  function Dedent(ls: seq<string>): (r: seq<string>)
    ensures |r| == |ls|
    ensures forall i :: 0 <= i < |ls| ==> r[i] == StripPrefix(ls[i], Indentation(ls))
  {
    var w := Indentation(ls);
    seq(|ls|, i requires 0 <= i < |ls| => StripPrefix(ls[i], w))
  }

  /**
   * Dedenting removes from each line nothing but leading indentation
   * characters, and from a line that starts with the chosen indentation
   * exactly that many.
   */
  lemma DedentRemovesOnlyIndentation(ls: seq<string>, i: nat)
    requires i < |ls|
    ensures ls[i] == ls[i][..|ls[i]| - |Dedent(ls)[i]|] + Dedent(ls)[i]
    ensures IsIndent(ls[i][..|ls[i]| - |Dedent(ls)[i]|])
    ensures |Dedent(ls)[i]| == |ls[i]| || |Dedent(ls)[i]| == |ls[i]| - |Indentation(ls)|
  {
    var w := Indentation(ls);
    var r := Dedent(ls)[i];
    if StartsWith(ls[i], w) {
      assert ls[i][..|ls[i]| - |r|] == w;
    } else {
      assert ls[i][..|ls[i]| - |r|] == [];
    }
  }

  lemma {:induction false} LeadingRunOfIndented(w: string, rest: string)
    requires IsIndent(w)
    ensures LeadingRun(w + rest) == w + LeadingRun(rest)
    decreases |w|
  {
    if w == [] {
      assert w + rest == rest;
    } else {
      var l := w + rest;
      assert l[0] == w[0] && IsIndentChar(w[0]);
      assert l[1..] == w[1..] + rest;
      assert LeadingRun(l) == [w[0]] + LeadingRun(w[1..] + rest);
      assert IsIndent(w[1..]) by {
        forall i | 0 <= i < |w| - 1 ensures IsIndentChar(w[1..][i]) {
          assert w[1..][i] == w[i + 1];
        }
      }
      LeadingRunOfIndented(w[1..], rest);
      assert [w[0]] + (w[1..] + LeadingRun(rest)) == w + LeadingRun(rest);
    }
  }

  /**
   * The dedent a reader expects: when every line is one indentation `w`
   * followed by its text, and at least one text starts with no indentation
   * at all, dedenting gives back exactly the texts.
   */
  lemma UniformIndentationRemoved(ls: seq<string>, w: string, texts: seq<string>, j: nat)
    requires IsIndent(w)
    requires |texts| == |ls|
    requires forall i :: 0 <= i < |ls| ==> ls[i] == w + texts[i]
    requires j < |texts| && LeadingRun(texts[j]) == []
    ensures Dedent(ls) == texts
  {
    UniformIndentation(ls, w, texts, j);
    forall i | 0 <= i < |ls| ensures Dedent(ls)[i] == texts[i] {
      assert ls[i][..|w|] == w;
      assert ls[i][|w|..] == texts[i];
    }
  }

  /** Under the same conditions, the indentation chosen is `w`. */
  lemma UniformIndentation(ls: seq<string>, w: string, texts: seq<string>, j: nat)
    requires IsIndent(w)
    requires |texts| == |ls|
    requires forall i :: 0 <= i < |ls| ==> ls[i] == w + texts[i]
    requires j < |texts| && LeadingRun(texts[j]) == []
    ensures Indentation(ls) == w
  {
    forall i | 0 <= i < |ls| ensures LeadingRun(ls[i]) == w + LeadingRun(texts[i]) {
      LeadingRunOfIndented(w, texts[i]);
    }
    var ind := Indentation(ls);
    assert LeadingRun(ls[j]) == w;
    assert |ind| <= |w|;
    var k :| 0 <= k < |ls| && ind == LeadingRun(ls[k]);
    assert ind == w + LeadingRun(texts[k]);
  }

  /** `remove_indentation`: the text with the shared indentation stripped from each line. */
  function RemoveIndentation(code: string): string {
    Join(Dedent(Lines(code)))
  }

  /** Text with some line that starts flush is left as it is. */
  lemma FlushCodeUnchanged(code: string)
    requires exists i :: 0 <= i < |Lines(code)| && LeadingRun(Lines(code)[i]) == []
    ensures RemoveIndentation(code) == code
  {
    var ls := Lines(code);
    var k :| 0 <= k < |ls| && LeadingRun(ls[k]) == [];
    FlushLineMeansNoIndentation(ls, k);
    NoIndentationNoChange(ls);
  }

  lemma FlushLineMeansNoIndentation(ls: seq<string>, k: nat)
    requires k < |ls| && LeadingRun(ls[k]) == []
    ensures Indentation(ls) == []
  {
    assert |Indentation(ls)| <= |LeadingRun(ls[k])|;
  }

  lemma NoIndentationNoChange(ls: seq<string>)
    requires Indentation(ls) == []
    ensures Dedent(ls) == ls
  {
    var d := Dedent(ls);
    forall i | 0 <= i < |ls| ensures d[i] == ls[i] {
      assert StartsWith(ls[i], []);
    }
  }

  // ---------------------------------------------------------------------
  // prefix_linenos_to
  // ---------------------------------------------------------------------

  /** The ljust-padded number prefix: "-> N:" on the marked line, "   N:" elsewhere. */
  function LinenoLabel(num: int, width: int, mark: int): (r: string)
    ensures |r| == if |IntToString(num)| + 4 < width then width else |IntToString(num)| + 4
    ensures num == mark ==> StartsWith(r, "-> ")
    ensures num != mark ==> StartsWith(r, "   ")
    ensures r[3..3 + |IntToString(num)|] == IntToString(num)
    ensures r[3 + |IntToString(num)|] == ':'
    ensures forall i :: |IntToString(num)| + 4 <= i < |r| ==> r[i] == ' '
  {
    var head := (if num == mark then "-> " else "   ") + IntToString(num) + ":";
    assert head[3..3 + |IntToString(num)|] == IntToString(num);
    LJust(head, width)
  }

  /** Only the line numbered `mark` carries the "-> " marker. */
  lemma MarkerIffMarked(num: int, width: int, mark: int)
    ensures StartsWith(LinenoLabel(num, width, mark), "-> ") <==> num == mark
  {
    var r := LinenoLabel(num, width, mark);
    if num != mark {
      assert r[..3] == "   ";
    }
  }

  /** The coloured number prefix of one line. */
  function LinenoPrefix(theme: Theme, num: int, width: int, mark: int): string {
    var prefix := LinenoLabel(num, width, mark);
    theme.colorLinenum(if num == mark then theme.markLinenum(prefix) else prefix)
  }

  /** The lines behind their prefixes: `prefix + " " + line`. */
  function Prefixed(ps: seq<string>, ls: seq<string>): (r: seq<string>)
    requires |ps| == |ls|
    ensures |r| == |ls|
    ensures forall k :: 0 <= k < |ls| ==> r[k] == ps[k] + " " + ls[k]
  {
    seq(|ls|, k requires 0 <= k < |ls| => ps[k] + " " + ls[k])
  }

  function Prefixes(theme: Theme, count: nat, start: int, width: int, mark: int): (r: seq<string>)
    ensures |r| == count
    ensures forall k :: 0 <= k < count ==> r[k] == LinenoPrefix(theme, start + k, width, mark)
  {
    seq(count, k requires 0 <= k < count => LinenoPrefix(theme, start + k, width, mark))
  }

  /** `max_linenum.to_s.length + 4` for `count` lines numbered from `start`. */
  function LinenoWidth(count: nat, start: int): int {
    |IntToString(count + start - 1)| + 4
  }

  /** The numbered lines of `prefix_linenos_to`, line k numbered `start + k`. */
  function NumberLines(theme: Theme, lines: seq<string>, start: int, mark: int): seq<string> {
    Prefixed(Prefixes(theme, |lines|, start, LinenoWidth(|lines|, start), mark), lines)
  }

  /** `prefix_linenos_to(code, start, mark:)`. */
  function PrefixLinenos(theme: Theme, code: string, start: int, mark: int): string {
    Join(NumberLines(theme, Lines(code), start, mark))
  }

  /** The theme's number colouring adds no line breaks. */
  ghost predicate PlainLinenos(theme: Theme) {
    forall s :: '\n' !in theme.colorLinenum(s) && '\n' !in theme.markLinenum(s)
  }

  lemma PrefixedLine(p: string, l: string)
    requires '\n' !in p && IsLine(l)
    ensures IsLine(p + " " + l)
    ensures EndsWithNewline(p + " " + l) <==> EndsWithNewline(l)
  {
    var x := p + " " + l;
    forall i | 0 <= i < |x| - 1 ensures x[i] != '\n' {
      if i < |p| {
        assert x[i] == p[i];
      } else if i > |p| {
        assert x[i] == l[i - |p| - 1];
      }
    }
  }

  /** Putting newline-free prefixes in front of lines keeps them lines. */
  lemma PrefixedLinesAreLines(ps: seq<string>, ls: seq<string>)
    requires |ps| == |ls| && IsLineSeq(ls)
    requires forall k :: 0 <= k < |ps| ==> '\n' !in ps[k]
    ensures IsLineSeq(Prefixed(ps, ls))
  {
    var out := Prefixed(ps, ls);
    forall k | 0 <= k < |ls|
      ensures IsLine(out[k]) && (EndsWithNewline(out[k]) <==> EndsWithNewline(ls[k]))
    {
      PrefixedLine(ps[k], ls[k]);
    }
  }

  /**
   * `prefix_linenos_to` keeps the lines: split again, its output has as
   * many lines as its input, and line k is input line k behind the prefix
   * of number `start + k`.
   */
  lemma PrefixLinenosKeepsLines(theme: Theme, code: string, start: int, mark: int)
    requires PlainLinenos(theme)
    ensures Lines(PrefixLinenos(theme, code, start, mark)) == NumberLines(theme, Lines(code), start, mark)
    ensures |Lines(PrefixLinenos(theme, code, start, mark))| == |Lines(code)|
  {
    var lines := Lines(code);
    var ps := Prefixes(theme, |lines|, start, LinenoWidth(|lines|, start), mark);
    PrefixedLinesAreLines(ps, lines);
    LinesOfJoin(Prefixed(ps, lines));
  }

  /** Every prefix is padded to `digits(max_linenum) + 4` when numbering starts at 0 or later. */
  lemma LinenoLabelWidth(count: nat, start: int, k: nat, mark: int)
    requires start >= 0 && k < count
    ensures |LinenoLabel(start + k, LinenoWidth(count, start), mark)| == LinenoWidth(count, start)
  {
    DigitsMonotone(start + k, count + start - 1);
    IntToStringOfNat(start + k);
    IntToStringOfNat(count + start - 1);
    assert |IntToString(start + k)| <= |IntToString(count + start - 1)|;
  }

  // ---------------------------------------------------------------------
  // add_message_to
  // ---------------------------------------------------------------------

  /** The line at the offset after the message is added: chomped, a space, the message, "\n". */
  function MessageLine(line: string, message: string): string {
    Chomp(line) + " " + message + "\n"
  }

  /**
   * What `add_message_to` computes, with the line's trailing newline removed
   * as by `chomp`: the line at `offset` replaced by its message line, or an
   * error when there is no line there.
   */
  function MessageAdded(code: string, offset: int, message: string): (r: Result<string, CodeError>)
    ensures r.Err? <==> RubyIndex(|Lines(code)|, offset).None?
    ensures r.Err? ==> r.error == NoLineAtOffset
  {
    var lines := Lines(code);
    match RubyIndex(|lines|, offset)
    case None => Err(NoLineAtOffset)
    case Some(i) => Ok(Join(lines[i := MessageLine(lines[i], message)]))
  }

  /**
   * `add_message_to`: splits the text into an array of lines, replaces the
   * one at `offset` in place and joins the array again.
   */
  method AddMessageTo(code: string, offset: int, message: string) returns (r: Result<string, CodeError>)
    ensures r == MessageAdded(code, offset, message)
  {
    var lines := Lines(code);
    var idx := RubyIndex(|lines|, offset);
    if idx.None? {
      return Err(NoLineAtOffset);
    }
    var a := new string[|lines|](k requires 0 <= k < |lines| => lines[k]);
    var i := idx.value;
    a[i] := MessageLine(a[i], message);
    assert a[..] == lines[i := MessageLine(lines[i], message)];
    var joined := JoinArray(a);
    r := Ok(joined);
  }

  /** `Array#join`: the lines of the array, concatenated in order. */
  method JoinArray(a: array<string>) returns (joined: string)
    ensures joined == Join(a[..])
  {
    joined := "";
    var k := 0;
    while k < a.Length
      invariant 0 <= k <= a.Length
      invariant joined == Join(a[..k])
    {
      assert a[..k + 1] == a[..k] + [a[k]];
      JoinAppend(a[..k], [a[k]]);
      joined := joined + a[k];
      k := k + 1;
    }
    assert a[..a.Length] == a[..];
  }

  /**
   * After the message is added, the text still splits into the same number
   * of lines; the one at the offset is the message line and every other
   * line is unchanged.
   */
  lemma MessageKeepsOtherLines(code: string, offset: int, message: string)
    requires RubyIndex(|Lines(code)|, offset).Some?
    requires '\n' !in message
    ensures var lines := Lines(code);
            var i := RubyIndex(|lines|, offset).value;
            && MessageAdded(code, offset, message).Ok?
            && var after := Lines(MessageAdded(code, offset, message).value);
            && |after| == |lines|
            && after[i] == Chomp(lines[i]) + " " + message + "\n"
            && forall j :: 0 <= j < |lines| && j != i ==> after[j] == lines[j]
  {
    var lines := Lines(code);
    var i := RubyIndex(|lines|, offset).value;
    var m := MessageLine(lines[i], message);
    var c := Chomp(lines[i]);
    assert IsLine(m) by {
      forall j | 0 <= j < |m| - 1 ensures m[j] != '\n' {
        if j < |c| {
          assert m[j] == c[j];
        } else if j > |c| {
          assert m[j] == message[j - |c| - 1];
        }
      }
    }
    LinesOfJoin(lines[i := m]);
  }

  /**
   * `add_message_to` exactly as written: `lines[offset].chomp! << ...`
   * calls `<<` on what `chomp!` returns, which is nil when the line ends
   * in no line break.
   */
  function AddMessageAsWritten(code: string, offset: int, message: string): (r: Result<string, CodeError>)
    ensures r == Err(NoLineAtOffset) <==> RubyIndex(|Lines(code)|, offset).None?
    ensures RubyIndex(|Lines(code)|, offset).Some? ==>
              var line := Lines(code)[RubyIndex(|Lines(code)|, offset).value];
              && (!EndsWithNewline(line) && !EndsWithReturn(line) ==> r == Err(ChompReturnedNil))
              && (EndsWithNewline(line) || EndsWithReturn(line) ==> r == MessageAdded(code, offset, message))
  {
    var lines := Lines(code);
    match RubyIndex(|lines|, offset)
    case None => Err(NoLineAtOffset)
    case Some(i) =>
      if Chomp(lines[i]) == lines[i] then Err(ChompReturnedNil)
      else Ok(Join(lines[i := MessageLine(lines[i], message)]))
  }

  /**
   * As written, adding a message to a line with no line break at its end
   * (the last line of a file that does not end in a newline) raises.
   */
  lemma UnterminatedLineRaises(code: string, offset: int, message: string)
    requires RubyIndex(|Lines(code)|, offset).Some?
    requires var line := Lines(code)[RubyIndex(|Lines(code)|, offset).value];
             !EndsWithNewline(line) && !EndsWithReturn(line)
    ensures AddMessageAsWritten(code, offset, message) == Err(ChompReturnedNil)
  {
  }

  /** The concrete case: a one-line file "x = 1" with no final newline. */
  lemma UnterminatedLineExample()
    ensures AddMessageAsWritten("x = 1", 0, "m") == Err(ChompReturnedNil)
    ensures MessageAdded("x = 1", 0, "m") == Ok("x = 1 m\n")
  {
    var ls := ["x = 1"];
    assert IsLineSeq(ls);
    assert Join(ls) == "x = 1";
    LinesOfJoin(ls);
    assert Lines("x = 1") == ls;
    assert Chomp("x = 1") == "x = 1";
    assert MessageLine("x = 1", "m") == "x = 1 m\n";
    assert ls[0 := "x = 1 m\n"] == ["x = 1 m\n"];
    assert Join(["x = 1 m\n"]) == "x = 1 m\n";
  }
}
