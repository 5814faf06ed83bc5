/**
 * `FormatTerminal::Code#call` (lib/error_to_communicate/format_terminal.rb):
 * renders one code window, a path header followed by the numbered source
 * lines around a backtrace location.
 */
module Code {
  import opened Wrappers
  import opened Text
  import opened Theme
  import opened ExceptionInfo
  import opened CodeLines

  /** An inclusive Ruby range `first..last` of line offsets. */
  datatype Range = Range(first: int, last: int)

  datatype Emphasis = EmphasizeCode | EmphasizePath

  /**
   * The attributes hash given to `Code#call`. `location` and `context` are
   * always present; the others are `None` when the key is absent.
   */
  datatype CodeRequest = CodeRequest(
    location: Location,
    context: Range,
    highlight: Option<string>,
    message: Option<string>,
    mark: Option<bool>,
    emphasis: Option<Emphasis>)

  /**
   * The file system and the path library, which this model does not see.
   * `fileContents(path)` is `None` when `path.exist?` is false;
   * `relativeDir(from, to)` is `None` when `relative_path_from` raises.
   */
  datatype Host = Host(
    fileContents: string -> Option<string>,
    relativeDir: (string, string) -> Option<string>,
    basename: string -> string)

  /** `bound_num(min:, num:)`. */
  function BoundNum(min: int, num: int): (r: int)
    ensures r >= min && r >= num
    ensures r == min || r == num
  {
    if num < min then min else num
  }

  /** The values `Code#call` derives from its attributes before rendering. */
  datatype Settings = Settings(
    lineIndex: int,
    startIndex: nat,
    endIndex: nat,
    highlight: string,
    message: string,
    messageOffset: int,
    markLinenum: int)

  function SettingsOf(req: CodeRequest): (s: Settings)
    ensures s.lineIndex == req.location.linenum - 1
    // the window bounds are the context offsets clamped at line index 0
    ensures s.startIndex == (if s.lineIndex + req.context.first < 0 then 0 else s.lineIndex + req.context.first)
    ensures s.endIndex == (if s.lineIndex + req.context.last < 0 then 0 else s.lineIndex + req.context.last)
    // the frame's own line sits at `messageOffset` inside the window
    ensures s.startIndex + s.messageOffset == s.lineIndex
    ensures req.location.linenum >= 1 && req.context.first <= 0 ==>
              0 <= s.messageOffset <= -req.context.first
    ensures req.location.linenum >= 1 && req.context.first <= 0 <= req.context.last ==>
              s.startIndex <= s.lineIndex <= s.endIndex
    // defaults of the optional keys
    ensures s.highlight == (if req.highlight.Some? then req.highlight.value else req.location.frameLabel)
    ensures s.message == (if req.message.Some? then req.message.value else "")
    ensures s.markLinenum == (if req.mark == Some(false) then -1 else req.location.linenum)
  {
    var lineIndex := req.location.linenum - 1;
    var endIndex := BoundNum(0, lineIndex + req.context.last);
    var startIndex := BoundNum(0, lineIndex + req.context.first);
    Settings(
      lineIndex,
      startIndex,
      endIndex,
      req.highlight.GetOr(req.location.frameLabel),
      req.message.GetOr(""),
      lineIndex - startIndex,
      if req.mark.GetOr(true) then req.location.linenum else -1)
  }

  /** `path_to_dir`: the relative directory, or the path itself when none can be computed. */
  function PathToDir(host: Host, cwd: string, path: string): (r: string)
    ensures host.relativeDir(cwd, path).None? ==> r == path
    ensures host.relativeDir(cwd, path).Some? ==> r == host.relativeDir(cwd, path).value
  {
    match host.relativeDir(cwd, path)
    case Some(dir) => dir
    case None => path
  }

  /** The header line: directory, file name and line number, each coloured. */
  function PathLine(theme: Theme, host: Host, cwd: string, loc: Location): string {
    theme.colorPath(PathToDir(host, cwd, loc.path) + "/")
      + theme.colorFilename(host.basename(loc.path))
      + ":"
      + theme.colorLinenumOf(loc.linenum)
  }

  const MissingCode: string := "Can't find code\n"

  /** The window's lines taken from the file: `lines[start_index..end_index]`. */
  function Excerpt(contents: string, s: Settings): Option<seq<string>> {
    RubySlice(Lines(contents), s.startIndex, s.endIndex)
  }

  /** The excerpt dedented, highlighted and numbered from `start_index + 1`. */
  function NumberedCode(theme: Theme, excerpt: seq<string>, s: Settings): string {
    PrefixLinenos(theme, theme.syntaxHighlight(RemoveIndentation(Join(excerpt))), s.startIndex + 1, s.markLinenum)
  }

  /** The code part of the window when the file exists; specifies the pipeline in `Call`. */
  function CodeText(theme: Theme, contents: string, s: Settings): (r: Result<string, CodeError>)
    // the slice is nil exactly when the window starts past the end of the file
    ensures r == Err(NilSlice) <==> s.startIndex > |Lines(contents)|
    ensures r.Err? ==> r.error == NilSlice || r.error == NoLineAtOffset
  {
    match Excerpt(contents, s)
    case None => Err(NilSlice)
    case Some(excerpt) =>
      match MessageAdded(NumberedCode(theme, excerpt, s), s.messageOffset, theme.screamingRed(s.message))
      case Err(e) => Err(e)
      case Ok(withMessage) => Ok(theme.highlightText(withMessage, s.messageOffset, s.highlight))
  }

  /** The code part of the window: the placeholder when the file does not exist. */
  function CodeOf(theme: Theme, host: Host, req: CodeRequest): (r: Result<string, CodeError>)
    ensures host.fileContents(req.location.path).None? ==> r == Ok(MissingCode)
    ensures host.fileContents(req.location.path).Some? ==>
              (r == Err(NilSlice) <==> SettingsOf(req).startIndex > |Lines(host.fileContents(req.location.path).value)|)
    ensures r.Err? ==> r.error == NilSlice || r.error == NoLineAtOffset
  {
    match host.fileContents(req.location.path)
    case None => Ok(MissingCode)
    case Some(contents) => CodeText(theme, contents, SettingsOf(req))
  }

  /** The header and the code put together, as the emphasis asks. */
  function Assemble(theme: Theme, pathLine: string, code: string, emphasis: Option<Emphasis>, s: Settings): (r: Result<string, CodeError>)
    ensures emphasis.None? <==> r.Err?
    ensures emphasis == Some(EmphasizeCode) ==> r == Ok(pathLine + "\n" + code)
    ensures emphasis == Some(EmphasizePath) ==> r.Ok? && StartsWith(r.value, theme.underline(pathLine) + "\n")
    // with path emphasis the code is indented, desaturated and highlighted again
    ensures emphasis == Some(EmphasizePath) ==>
              r.value[|theme.underline(pathLine) + "\n"|..]
                == theme.highlightText(theme.desaturate(theme.indent(code, "      ")), s.messageOffset, s.highlight)
  {
    match emphasis
    case None => Err(MissingEmphasis)
    case Some(EmphasizeCode) => Ok(pathLine + "\n" + code)
    case Some(EmphasizePath) =>
      var dimmed := theme.highlightText(theme.desaturate(theme.indent(code, "      ")), s.messageOffset, s.highlight);
      var header := theme.underline(pathLine);
      assert (header + "\n" + dimmed)[..|header + "\n"|] == header + "\n";
      assert (header + "\n" + dimmed)[|header + "\n"|..] == dimmed;
      Ok(header + "\n" + dimmed)
  }

  /** The whole window `Code#call` returns, or the error it raises. */
  function Window(theme: Theme, host: Host, cwd: string, req: CodeRequest): (r: Result<string, CodeError>)
    ensures req.emphasis.None? ==> r.Err?
    ensures host.fileContents(req.location.path).None? && req.emphasis == Some(EmphasizeCode) ==>
              r == Ok(PathLine(theme, host, cwd, req.location) + "\n" + MissingCode)
    ensures r.Ok? && req.emphasis == Some(EmphasizeCode) ==>
              StartsWith(r.value, PathLine(theme, host, cwd, req.location) + "\n")
    ensures r.Ok? && req.emphasis == Some(EmphasizePath) ==>
              StartsWith(r.value, theme.underline(PathLine(theme, host, cwd, req.location)) + "\n")
  {
    var pathLine := PathLine(theme, host, cwd, req.location);
    match CodeOf(theme, host, req)
    case Err(e) => Err(e)
    case Ok(c) =>
      var r := Assemble(theme, pathLine, c, req.emphasis, SettingsOf(req));
      assert req.emphasis == Some(EmphasizeCode) ==> (pathLine + "\n" + c)[..|pathLine + "\n"|] == pathLine + "\n";
      r
  }

  /**
   * The `path.exist?` branch of `Code#call`: reads the window's lines and
   * passes the text through the pipeline one reassignment at a time.
   */
  method ReadCode(theme: Theme, contents: string, s: Settings) returns (r: Result<string, CodeError>)
    ensures r == CodeText(theme, contents, s)
  {
    var excerpt := RubySlice(Lines(contents), s.startIndex, s.endIndex);
    if excerpt.None? {
      return Err(NilSlice);
    }
    var code := NumberedCode(theme, excerpt.value, s);
    var added := AddMessageTo(code, s.messageOffset, theme.screamingRed(s.message));
    if added.Err? {
      return Err(added.error);
    }
    code := added.value;
    code := theme.highlightText(code, s.messageOffset, s.highlight);
    r := Ok(code);
  }

  /**
   * `Code#call`: fetches the attributes, builds the path header and the
   * code, adjusts both for the emphasis, then appends the code to the
   * header.
   */
  method Call(theme: Theme, host: Host, cwd: string, req: CodeRequest) returns (r: Result<string, CodeError>)
    ensures r == Window(theme, host, cwd, req)
  {
    var location := req.location;
    var s := SettingsOf(req);
    var pathLine := PathLine(theme, host, cwd, location);
    var code: string;
    match host.fileContents(location.path) {
      case None =>
        code := MissingCode;
      case Some(contents) =>
        var read := ReadCode(theme, contents, s);
        if read.Err? {
          return Err(read.error);
        }
        code := read.value;
    }
    assert CodeOf(theme, host, req) == Ok(code);
    if req.emphasis.None? {
      return Err(MissingEmphasis);
    }
    if req.emphasis.value == EmphasizePath {
      pathLine := theme.underline(pathLine);
      code := theme.indent(code, "      ");
      code := theme.desaturate(code);
      code := theme.highlightText(code, s.messageOffset, s.highlight);
    }
    pathLine := pathLine + "\n";
    pathLine := pathLine + code;
    r := Ok(pathLine);
  }

  /**
   * When the file is long enough, the window holds exactly
   * `end_index - start_index + 1` of its lines, starting at `start_index`.
   */
  lemma ExcerptLineCount(contents: string, req: CodeRequest)
    requires req.context.first <= req.context.last
    requires SettingsOf(req).endIndex < |Lines(contents)|
    ensures var s := SettingsOf(req);
            && Excerpt(contents, s).Some?
            && |Excerpt(contents, s).value| == s.endIndex - s.startIndex + 1
            && forall k :: 0 <= k < |Excerpt(contents, s).value| ==>
                 Excerpt(contents, s).value[k] == Lines(contents)[s.startIndex + k]
  {
  }

  /**
   * With `mark: false` no line gets the "-> " marker: the mark is -1 and
   * the window's lines are numbered from 1.
   */
  lemma UnmarkedWindow(req: CodeRequest, count: nat, k: nat)
    requires req.mark == Some(false) && k < count
    ensures var s := SettingsOf(req);
            StartsWith(LinenoLabel(s.startIndex + 1 + k, LinenoWidth(count, s.startIndex + 1), s.markLinenum), "   ")
  {
  }

  /**
   * Only the window line whose number is the frame's line number gets the
   * "-> " marker, when marking is on.
   */
  lemma MarkedLineIsFrameLine(req: CodeRequest, count: nat, k: nat)
    requires req.mark != Some(false) && k < count
    ensures var s := SettingsOf(req);
            var prefix := LinenoLabel(s.startIndex + 1 + k, LinenoWidth(count, s.startIndex + 1), s.markLinenum);
            (StartsWith(prefix, "-> ") <==> s.startIndex + 1 + k == req.location.linenum)
  {
    var s := SettingsOf(req);
    assert s.markLinenum == req.location.linenum;
    MarkerIffMarked(s.startIndex + 1 + k, LinenoWidth(count, s.startIndex + 1), s.markLinenum);
  }
}
