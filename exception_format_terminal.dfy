/**
 * `Heuristics::Exception::FormatTerminal`
 * (lib/error_to_communicate/heuristics/exception/format_terminal.rb): the
 * catch-all heuristic's own terminal formatter. It builds the same header
 * as the catch-all presenter and asks its presenter for one code window,
 * without a working directory.
 */
module ExceptionFormatTerminal {
  import opened Wrappers
  import opened Text
  import opened Theme
  import opened ExceptionInfo
  import opened Code
  import opened HeuristicPresenter

  /** `header`: class name, explanation, reset, as one line. */
  function Header(theme: Theme, info: ExceptionInfo, explanation: string): (r: seq<string>)
    ensures |r| == 1
    ensures StartsWith(r[0], theme.white + info.classname + " | ")
    ensures EndsWith(r[0], theme.none + "\n")
    ensures r == ExceptionHeader(theme, info, explanation)
  {
    var line := theme.white + info.classname + " | " + theme.briRed + explanation + " " + theme.none + "\n";
    assert line == (theme.white + info.classname + " | ") + (theme.briRed + explanation + " " + theme.none + "\n");
    assert line == (theme.white + info.classname + " | " + theme.briRed + explanation + " ") + (theme.none + "\n");
    [line]
  }

  /**
   * `helpful_info`: frame 0, centred, highlighting the frame's label, with
   * no message and no working directory. An empty backtrace raises, as
   * `label` is then sent to nil.
   */
  function HelpfulInfo(info: ExceptionInfo): (r: Result<seq<LocationRequest>, PresentError>)
    ensures r.Err? <==> info.backtrace == []
    ensures r.Ok? ==> |r.value| == 1
    ensures r.Ok? ==> && r.value[0].location == Some(info.backtrace[0])
                      && r.value[0].highlight == info.backtrace[0].frameLabel
                      && r.value[0].context == Range(-5, 5)
                      && r.value[0].message.None?
                      && r.value[0].emphasisis == EmphasizeCode
                      && r.value[0].cwd.None?
  {
    if info.backtrace == [] then Err(NoFrame)
    else
      Ok([LocationRequest(Frame(info.backtrace, 0), info.backtrace[0].frameLabel, Range(-5, 5),
                          None, EmphasizeCode, None)])
  }

  /**
   * The formatter asks for the same window as the catch-all presenter,
   * except that it passes no working directory, so paths are shown as
   * given rather than relative to one.
   */
  lemma AgreesWithPresenter(info: ExceptionInfo, cwd: string)
    ensures HelpfulInfo(info).Err? <==> ExceptionHelpfulInfo(info, cwd).Err?
    ensures HelpfulInfo(info).Ok? ==>
              HelpfulInfo(info).value == [ExceptionHelpfulInfo(info, cwd).value[0].(cwd := None)]
  {
  }
}
