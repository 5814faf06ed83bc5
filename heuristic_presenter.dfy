/**
 * `Format::HeuristicPresenter` (lib/error_to_communicate/format/heuristic_presenter.rb):
 * the presenters of the arity, method-missing and catch-all heuristics. Each
 * builds a one-line header and the list of code windows to show.
 */
module HeuristicPresenter {
  import opened Wrappers
  import opened Text
  import opened Theme
  import opened ExceptionInfo
  import opened Code

  /**
   * The attributes a presenter hands to `display_location`, which this
   * model takes to be the identity: the request is the hash itself. The
   * key spelled `emphasisis` in the source is kept under that name.
   */
  datatype LocationRequest = LocationRequest(
    location: Option<Location>,
    highlight: string,
    context: Range,
    message: Option<string>,
    emphasisis: Emphasis,
    cwd: Option<string>)

  /** `info.backtrace[0].label` on an empty backtrace: `label` is sent to nil. */
  datatype PresentError = NoFrame

  /** `backtrace[i]`: nil past the end. */
  function Frame(backtrace: seq<Location>, i: nat): (r: Option<Location>)
    ensures r.Some? <==> i < |backtrace|
    ensures r.Some? ==> r.value == backtrace[i]
  {
    if i < |backtrace| then Some(backtrace[i]) else None
  }

  /** `"#{n}"`: a count interpolated into text; nil interpolates as nothing. */
  function CountText(n: Option<nat>): (s: string)
    ensures n.None? ==> s == []
    ensures n.Some? ==> s != [] && AllDigits(s) && DecimalValue(s) == n.value
    ensures n.Some? ==> |s| == 1 || s[0] != '0'
  {
    match n
    case None => []
    case Some(v) =>
      NatToStringRoundTrip(v);
      NatToString(v)
  }

  // -----------------------------------------------------------------------
  // Headers
  // -----------------------------------------------------------------------

  /** The part every header starts with: class name, then explanation. */
  function HeaderLead(theme: Theme, classname: string, explanation: string): string {
    theme.white + classname + " | " + theme.briRed + explanation + " "
  }

  /** The header of the method-missing and catch-all presenters. */
  function PlainHeader(theme: Theme, info: ExceptionInfo, explanation: string): (r: seq<string>)
    ensures |r| == 1
    ensures StartsWith(r[0], HeaderLead(theme, info.classname, explanation))
    ensures EndsWith(r[0], theme.none + "\n")
    ensures |r[0]| == |HeaderLead(theme, info.classname, explanation)| + |theme.none| + 1
  {
    var lead := HeaderLead(theme, info.classname, explanation);
    var line := lead + theme.none + "\n";
    assert line == lead + (theme.none + "\n");
    [line]
  }

  /** The counts the arity header shows: `(expected N, sent M)`, coloured. */
  function ArityFigures(theme: Theme, numExpected: Option<nat>, numReceived: Option<nat>): (f: string)
    ensures StartsWith(f, theme.dimRed + "(expected " + theme.white + CountText(numExpected) + ",")
    ensures EndsWith(f, theme.dimRed + " sent " + theme.white + CountText(numReceived) + theme.dimRed + ")")
    ensures |f| == |theme.dimRed + "(expected " + theme.white + CountText(numExpected) + ","|
                   + |theme.dimRed + " sent " + theme.white + CountText(numReceived) + theme.dimRed + ")"|
  {
    var expected := theme.dimRed + "(expected " + theme.white + CountText(numExpected) + ",";
    var sent := theme.dimRed + " sent " + theme.white + CountText(numReceived) + theme.dimRed + ")";
    assert (expected + sent)[..|expected|] == expected;
    assert (expected + sent)[|expected|..] == sent;
    expected + sent
  }

  /** `WrongNumberOfArguments#header`: the plain header with the counts before the reset. */
  function ArityHeader(theme: Theme, info: ExceptionInfo, explanation: string,
                       numExpected: Option<nat>, numReceived: Option<nat>): (r: seq<string>)
    ensures |r| == 1
    ensures StartsWith(r[0], HeaderLead(theme, info.classname, explanation))
    ensures EndsWith(r[0], theme.none + "\n")
    ensures |r[0]| == |HeaderLead(theme, info.classname, explanation)|
                      + |ArityFigures(theme, numExpected, numReceived)| + |theme.none| + 1
    ensures var lead := HeaderLead(theme, info.classname, explanation);
            r[0][|lead|..|r[0]| - |theme.none| - 1] == ArityFigures(theme, numExpected, numReceived)
  {
    var lead := HeaderLead(theme, info.classname, explanation);
    var figures := ArityFigures(theme, numExpected, numReceived);
    var line := lead + figures + theme.none + "\n";
    assert line == lead + (figures + (theme.none + "\n"));
    assert line[|lead|..|line| - |theme.none| - 1] == figures;
    [line]
  }

  /** `NoMethodError#header`. */
  function NoMethodHeader(theme: Theme, info: ExceptionInfo, explanation: string): (r: seq<string>)
    ensures r == PlainHeader(theme, info, explanation)
  {
    [theme.white + info.classname + " | " + theme.briRed + explanation + " " + theme.none + "\n"]
  }

  /** `Exception#header`. */
  function ExceptionHeader(theme: Theme, info: ExceptionInfo, explanation: string): (r: seq<string>)
    ensures r == PlainHeader(theme, info, explanation)
  {
    [theme.white + info.classname + " | " + theme.briRed + explanation + " " + theme.none + "\n"]
  }

  /**
   * The arity header carries exactly the plain header's text around the
   * counts: removing the counts leaves the plain header.
   */
  lemma ArityHeaderExtendsPlainHeader(theme: Theme, info: ExceptionInfo, explanation: string,
                                      numExpected: Option<nat>, numReceived: Option<nat>)
    ensures var arity := ArityHeader(theme, info, explanation, numExpected, numReceived)[0];
            var plain := PlainHeader(theme, info, explanation)[0];
            var lead := HeaderLead(theme, info.classname, explanation);
            arity[..|lead|] + arity[|arity| - |theme.none| - 1..] == plain
  {
    var arity := ArityHeader(theme, info, explanation, numExpected, numReceived)[0];
    var plain := PlainHeader(theme, info, explanation)[0];
    var lead := HeaderLead(theme, info.classname, explanation);
    var figures := ArityFigures(theme, numExpected, numReceived);
    var tail := theme.none + "\n";
    assert arity == lead + figures + tail;
    assert plain == lead + tail;
    DropMiddle(lead, figures, tail);
  }

  /** Cutting the middle piece out of a concatenation of three. */
  lemma DropMiddle(a: string, b: string, c: string)
    ensures var s := a + b + c;
            s[..|a|] + s[|s| - |c|..] == a + c
  {
    var s := a + b + c;
    assert s[..|a|] == a;
    assert s[|s| - |c|..] == c;
  }

  // -----------------------------------------------------------------------
  // Helpful info
  // -----------------------------------------------------------------------

  /**
   * `WrongNumberOfArguments#helpful_info`: the method's definition (frame 0,
   * from its line on) with the expected count, and the call site (frame 1,
   * centred) with the count sent; both highlight the method's name.
   */
  function ArityHelpfulInfo(info: ExceptionInfo, numExpected: Option<nat>, numReceived: Option<nat>, cwd: string)
    : (r: Result<seq<LocationRequest>, PresentError>)
    ensures r.Err? <==> info.backtrace == []
    ensures r.Ok? ==> |r.value| == 2
    ensures r.Ok? ==> && r.value[0].location == Some(info.backtrace[0])
                      && r.value[0].context == Range(0, 5)
                      && r.value[0].message == Some("EXPECTED " + CountText(numExpected))
    ensures r.Ok? ==> && r.value[1].location == Frame(info.backtrace, 1)
                      && r.value[1].context == Range(-5, 5)
                      && r.value[1].message == Some("SENT " + CountText(numReceived))
    ensures r.Ok? ==> forall i :: 0 <= i < 2 ==>
              && r.value[i].highlight == info.backtrace[0].frameLabel
              && r.value[i].emphasisis == EmphasizeCode
              && r.value[i].cwd == Some(cwd)
    ensures |info.backtrace| == 1 ==> r.Ok? && r.value[1].location.None?
  {
    if info.backtrace == [] then Err(NoFrame)
    else
      var frameLabel := info.backtrace[0].frameLabel;
      Ok([ LocationRequest(Frame(info.backtrace, 0), frameLabel, Range(0, 5),
                           Some("EXPECTED " + CountText(numExpected)), EmphasizeCode, Some(cwd)),
           LocationRequest(Frame(info.backtrace, 1), frameLabel, Range(-5, 5),
                           Some("SENT " + CountText(numReceived)), EmphasizeCode, Some(cwd)) ])
  }

  /** `NoMethodError#helpful_info`: frame 0, centred, naming the undefined method. */
  function NoMethodHelpfulInfo(info: ExceptionInfo, undefinedMethodName: string, cwd: string)
    : (r: Result<seq<LocationRequest>, PresentError>)
    ensures r.Err? <==> info.backtrace == []
    ensures r.Ok? ==> r.value == [LocationRequest(Some(info.backtrace[0]), info.backtrace[0].frameLabel, Range(-5, 5),
                                                  Some(undefinedMethodName + " is undefined"), EmphasizeCode, Some(cwd))]
  {
    if info.backtrace == [] then Err(NoFrame)
    else
      Ok([LocationRequest(Frame(info.backtrace, 0), info.backtrace[0].frameLabel, Range(-5, 5),
                          Some(undefinedMethodName + " is undefined"), EmphasizeCode, Some(cwd))])
  }

  /** `Exception#helpful_info`: frame 0, centred, with no message. */
  function ExceptionHelpfulInfo(info: ExceptionInfo, cwd: string): (r: Result<seq<LocationRequest>, PresentError>)
    ensures r.Err? <==> info.backtrace == []
    ensures r.Ok? ==> r.value == [LocationRequest(Some(info.backtrace[0]), info.backtrace[0].frameLabel, Range(-5, 5),
                                                  None, EmphasizeCode, Some(cwd))]
  {
    if info.backtrace == [] then Err(NoFrame)
    else
      Ok([LocationRequest(Frame(info.backtrace, 0), info.backtrace[0].frameLabel, Range(-5, 5),
                          None, EmphasizeCode, Some(cwd))])
  }

  // -----------------------------------------------------------------------
  // What the requested windows show
  // -----------------------------------------------------------------------

  /** The two context ranges the presenters use: from the frame's line on, or centred on it. */
  predicate PresenterContext(c: Range) {
    c == Range(0, 5) || c == Range(-5, 5)
  }

  /** Every request any presenter builds uses one of the two context ranges. */
  lemma PresentersUseTwoContexts(info: ExceptionInfo, numExpected: Option<nat>, numReceived: Option<nat>,
                                 undefinedMethodName: string, cwd: string)
    requires info.backtrace != []
    ensures forall r <- ArityHelpfulInfo(info, numExpected, numReceived, cwd).value :: PresenterContext(r.context)
    ensures forall r <- NoMethodHelpfulInfo(info, undefinedMethodName, cwd).value :: PresenterContext(r.context)
    ensures forall r <- ExceptionHelpfulInfo(info, cwd).value :: PresenterContext(r.context)
  {
    var reqs := ArityHelpfulInfo(info, numExpected, numReceived, cwd).value;
    assert reqs == [reqs[0], reqs[1]];
  }

  /**
   * A code window over a presenter's context range and a frame whose line
   * number is at least 1 contains the frame's own line, at most 5 lines
   * below its first line, and spans at most 11 lines.
   */
  lemma PresenterWindowShowsFrameLine(req: CodeRequest)
    requires req.location.linenum >= 1 && PresenterContext(req.context)
    ensures var s := SettingsOf(req);
            && s.startIndex <= s.lineIndex <= s.endIndex
            && 0 <= s.messageOffset <= 5
            && s.endIndex - s.startIndex <= 10
    ensures req.context == Range(0, 5) ==> SettingsOf(req).messageOffset == 0
  {
  }

  /**
   * The arity messages read back as the counts: the text after
   * "EXPECTED " and after "SENT " is the decimal form of each count.
   */
  lemma ArityMessagesCarryCounts(info: ExceptionInfo, numExpected: nat, numReceived: nat, cwd: string)
    requires info.backtrace != []
    ensures var e := ArityHelpfulInfo(info, Some(numExpected), Some(numReceived), cwd).value[0].message.value;
            StartsWith(e, "EXPECTED ") && AllDigits(e[9..]) && DecimalValue(e[9..]) == numExpected
    ensures var s := ArityHelpfulInfo(info, Some(numExpected), Some(numReceived), cwd).value[1].message.value;
            StartsWith(s, "SENT ") && AllDigits(s[5..]) && DecimalValue(s[5..]) == numReceived
  {
    var reqs := ArityHelpfulInfo(info, Some(numExpected), Some(numReceived), cwd).value;
    assert reqs[0].message.value[9..] == CountText(Some(numExpected));
    assert reqs[1].message.value[5..] == CountText(Some(numReceived));
  }
}
