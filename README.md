# better_ruby_commandline_errors: the reporting core, in Dafny

The Ruby gem replaces the interpreter's report of an uncaught exception with
a coloured report that shows the code around the failing frames. This
project models the core of that report:

- **Classification** (`Config`): whether an exception is handled at all. It
  must parse, it must not be blacklisted (`SystemExit` by default), and some
  heuristic in list order must claim it. The first heuristic that claims it
  is chosen.
- **Arity-message parsing** (`Parse::WrongNumberOfArguments`): the two
  message shapes of MRI/JRuby and Rubinius, and the two counts read from them.
- **Presenters** (`Format::HeuristicPresenter` and
  `Heuristics::Exception::FormatTerminal`): each presenter builds a one-line
  header and the list of code windows to show.
- **Rendering** (`FormatTerminal#format`): a recursive interpreter over
  semantic trees with a closed vocabulary of tags.
- **Code windows** (`FormatTerminal::Code#call`): the path header, the window
  of source lines with the shared indentation removed, the line numbers,
  the `-> ` marker and the inline message.

Each Ruby file becomes one Dafny module:

| Dafny file / module | Ruby source |
|---|---|
| `config.dfy` / `Classifier` | `lib/error_to_communicate/config.rb` |
| `wrong_number_of_arguments.dfy` / `ArityParser` | `lib/error_to_communicate/parse/wrong_number_of_arguments.rb` |
| `heuristic_presenter.dfy` / `HeuristicPresenter` | `lib/error_to_communicate/format/heuristic_presenter.rb` |
| `exception_format_terminal.dfy` / `ExceptionFormatTerminal` | `lib/error_to_communicate/heuristics/exception/format_terminal.rb` |
| `format_terminal.dfy` / `FormatTerminal` | `FormatTerminal#call`, `#format` |
| `code_window.dfy` / `Code` | `FormatTerminal::Code#call`, `#bound_num`, `#path_to_dir` |
| `code_lines.dfy` / `CodeLines` | `Code#remove_indentation`, `#prefix_linenos_to`, `#add_message_to` |
| `text.dfy` / `Text` | the Ruby `String`, `Array` and `Integer` methods the core calls |
| `exception_info.dfy`, `theme.dfy`, `wrappers.dfy` | shared data: frames, exception infos, the theme, `Option`/`Result` |

What the core does step by step is written as methods, each proved equal to
the function that specifies it:

- `Code.Call` and `Code.ReadCode` follow the reassignments of `Code#call`.
- `CodeLines.AddMessageTo` replaces one element of an array in place and
  joins the array with a loop.
- `Classifier.Config` is a class whose fields the setters update.

Everything that can raise in Ruby returns a `Result`, with one error value
per cause.

Notes on behaviour, as the code has it:

- Line-number prefixes are padded on the right (`ljust`), not right-justified.
- Only a missing file gives the "Can't find code" placeholder. A window that
  starts past the end of the file (`lines[start..end]` is nil) raises. So do
  an offset with no line and a missing `:emphasis` key.
- `add_message_to` also raises when the offset line has no final line break,
  because `chomp!` then returns nil. That is recorded under "## Findings". The
  window (`Code.Window`, `Code.Call`) uses the corrected `add_message_to`,
  which chomps such a line and appends the message; the code as written is
  `CodeLines.AddMessageAsWritten`.
- A window reaching past the end of the file is cut at the last line.
- The message is added to the offset line even when none is given: it is
  then `''`.
- `parse` without a successful `parse?` does not fail. It yields nil counts.
- The indentation removed is the shortest leading run of `[ \r\t]`, the
  first such run if several are equally short. It is stripped only from
  lines that start with it. It is not computed as a prefix common to all
  lines.

## Model

| member | source | states |
|---|---|---|
| Classifier.DefaultHeuristics | lib/error_to_communicate/config.rb:14-18 | three heuristics in the order arity, method-missing, catch-all; the last claims every exception |
| Classifier.Find | lib/error_to_communicate/config.rb:40 | `find` yields the first position whose `for?` holds, none before it holds, and nothing exactly when none holds |
| Classifier.Config.constructor | lib/error_to_communicate/config.rb:30-35 | each option given is used, each missing one falls back to `DEFAULT_HEURISTICS` / `DEFAULT_BLACKLIST` |
| Classifier.Config.SetHeuristics | lib/error_to_communicate/config.rb:28 | the `heuristics=` writer replaces the list and nothing else |
| Classifier.Config.SetBlacklist | lib/error_to_communicate/config.rb:28 | the `blacklist=` writer replaces the predicate and nothing else |
| Classifier.Config.Accept | lib/error_to_communicate/config.rb:37-41 | accepted iff parseable, not blacklisted and claimed by some heuristic; unparseable or blacklisted is never accepted |
| Classifier.Config.HeuristicFor | lib/error_to_communicate/config.rb:43-47 | raises exactly when not accepted; otherwise the instance of the first heuristic that claims the parsed info, built from that info |
| Classifier.FirstMatchWins | lib/error_to_communicate/config.rb:46 | when heuristics i < j both claim the exception, j is never chosen and the choice is at or before i |
| Classifier.CatchAllAcceptsEverything | lib/error_to_communicate/config.rb:37-41 | with a catch-all last, acceptance is exactly "parseable and not blacklisted" |
| Classifier.DefaultAcceptance | lib/error_to_communicate/config.rb:20-22 | the default configuration accepts exactly the parseable exceptions other than `SystemExit` |
| Classifier.DefaultClassification | lib/error_to_communicate/config.rb:14-18 | under the defaults: arity iff its `for?` holds, method-missing iff only its `for?` holds, catch-all iff neither |
| Classifier.DefaultBlacklist | lib/error_to_communicate/config.rb:20-22 | `DEFAULT_BLACKLIST`: the class name is `SystemExit`; a predicate with no contract of its own, its effect is stated by `Classifier.DefaultAcceptance` |
| ArityParser.FirstMarker | lib/error_to_communicate/parse/wrong_number_of_arguments.rb:29 | the lazy `.*?` before `': given \d`: the first index from which the marker followed by a digit starts, none earlier |
| ArityParser.MatchMri | lib/error_to_communicate/parse/wrong_number_of_arguments.rb:27-28 | the MRI regex and its two `to_i`; no contract of its own, specified by `ArityParser.MriComplete` and `ArityParser.MriSound` |
| ArityParser.MatchRbx | lib/error_to_communicate/parse/wrong_number_of_arguments.rb:29-30 | the Rubinius regex and its two `to_i`; no contract of its own, specified by `ArityParser.RbxComplete`, `ArityParser.RbxSound` and `ArityParser.RbxFindsAnyReading` |
| ArityParser.MriComplete | lib/error_to_communicate/parse/wrong_number_of_arguments.rb:27-28 | every message of the MRI shape yields exactly its two decimal counts |
| ArityParser.MriSound | lib/error_to_communicate/parse/wrong_number_of_arguments.rb:27-28 | whatever the MRI matcher yields comes from a message of the MRI shape, with the counts read from it |
| ArityParser.AroundComplete | lib/error_to_communicate/parse/wrong_number_of_arguments.rb:29-30 | the lead-marker-digits-suffix-digits matcher yields exactly the counts of any message of its shape |
| ArityParser.AroundSound | lib/error_to_communicate/parse/wrong_number_of_arguments.rb:29-30 | whatever that matcher yields comes from a message of its shape |
| ArityParser.AroundFindsAnyReading | lib/error_to_communicate/parse/wrong_number_of_arguments.rb:29 | any way of reading a message as the pattern's pieces makes that matcher succeed |
| ArityParser.RbxComplete | lib/error_to_communicate/parse/wrong_number_of_arguments.rb:29-30 | every message of the Rubinius shape yields exactly its two decimal counts |
| ArityParser.RbxSound | lib/error_to_communicate/parse/wrong_number_of_arguments.rb:29-30 | whatever the Rubinius matcher yields comes from a message of the Rubinius shape |
| ArityParser.RbxFindsAnyReading | lib/error_to_communicate/parse/wrong_number_of_arguments.rb:29 | the Rubinius matcher misses no message the regex accepts |
| ArityParser.NameWithoutApostropheIsLazy | lib/error_to_communicate/parse/wrong_number_of_arguments.rb:29 | a method name without `'` holds no `': given ` followed by a digit, so the lazy name ends where the name ends |
| ArityParser.PatternsExclusive | lib/error_to_communicate/parse/wrong_number_of_arguments.rb:26-31 | no message matches both patterns |
| ArityParser.ExtractFrom | lib/error_to_communicate/parse/wrong_number_of_arguments.rb:25-32 | nil iff neither pattern matches; otherwise the counts of the pattern that matches |
| ArityParser.Parse | lib/error_to_communicate/parse/wrong_number_of_arguments.rb:11-21 | raises iff there is no message; the info carries the exception, its class name, the explanation, the backtrace and the counts (nil when no pattern matched) |
| ArityParser.ParseQ | lib/error_to_communicate/parse/wrong_number_of_arguments.rb:7-9 | `parse?`: a message that one pattern matches; no contract of its own, specified by `ArityParser.ParseQHasShape`, `ArityParser.ParsesMriMessage` and `ArityParser.ParsesRbxMessage` |
| ArityParser.ParsesMriMessage | lib/error_to_communicate/parse/wrong_number_of_arguments.rb:7-21 | an MRI message passes `parse?` and parses to its received and expected counts |
| ArityParser.ParsesRbxMessage | lib/error_to_communicate/parse/wrong_number_of_arguments.rb:7-21 | a Rubinius message passes `parse?` and parses to its received and expected counts |
| ArityParser.ParseQHasShape | lib/error_to_communicate/parse/wrong_number_of_arguments.rb:7-9 | what `parse?` accepts has the MRI shape or the Rubinius shape |
| ArityParser.CountsRoundTrip | lib/error_to_communicate/parse/wrong_number_of_arguments.rb:27-28 | counts written with `to_s` into an MRI message are read back unchanged |
| ArityParser.RbxCountsRoundTrip | lib/error_to_communicate/parse/wrong_number_of_arguments.rb:29-30 | counts written into a Rubinius message are read back unchanged, for any name without `'` |
| Text.NatToStringRoundTrip | lib/error_to_communicate/parse/wrong_number_of_arguments.rb:28 | `to_i` reads back what `to_s` writes |
| HeuristicPresenter.Frame | lib/error_to_communicate/format/heuristic_presenter.rb:37 | `backtrace[i]` is the frame when it exists and nil past the end |
| HeuristicPresenter.CountText | lib/error_to_communicate/format/heuristic_presenter.rb:23-24 | an interpolated count is its `to_s`: a digit string without a leading zero whose value is the count; nil interpolates as nothing |
| HeuristicPresenter.PlainHeader | lib/error_to_communicate/format/heuristic_presenter.rb:60-65 | one line: class name and explanation, then the reset and a newline, and nothing else |
| HeuristicPresenter.ArityFigures | lib/error_to_communicate/format/heuristic_presenter.rb:23-25 | `(expected N,` then ` sent M)`, coloured, with N and M the interpolated counts |
| HeuristicPresenter.ArityHeader | lib/error_to_communicate/format/heuristic_presenter.rb:20-28 | one line: the plain header's lead, then exactly the counts, then the reset and a newline |
| HeuristicPresenter.ArityHeaderExtendsPlainHeader | lib/error_to_communicate/format/heuristic_presenter.rb:20-28 | removing the counts from the arity header leaves the plain header |
| HeuristicPresenter.NoMethodHeader | lib/error_to_communicate/format/heuristic_presenter.rb:60-65 | the method-missing header is the plain header |
| HeuristicPresenter.ExceptionHeader | lib/error_to_communicate/format/heuristic_presenter.rb:91-96 | the catch-all header is the plain header |
| HeuristicPresenter.ArityHelpfulInfo | lib/error_to_communicate/format/heuristic_presenter.rb:30-44 | raises iff the backtrace is empty; two windows: frame 0 with `0..5` and "EXPECTED n", frame 1 (nil if absent) with `-5..5` and "SENT n", both highlighting frame 0's label |
| HeuristicPresenter.NoMethodHelpfulInfo | lib/error_to_communicate/format/heuristic_presenter.rb:67-75 | raises iff the backtrace is empty; one window on frame 0, `-5..5`, "NAME is undefined" |
| HeuristicPresenter.ExceptionHelpfulInfo | lib/error_to_communicate/format/heuristic_presenter.rb:98-105 | raises iff the backtrace is empty; one window on frame 0, `-5..5`, no message |
| HeuristicPresenter.PresentersUseTwoContexts | lib/error_to_communicate/format/heuristic_presenter.rb:33-39 | every window a presenter asks for uses `0..5` or `-5..5` |
| HeuristicPresenter.PresenterWindowShowsFrameLine | lib/error_to_communicate/format/heuristic_presenter.rb:33-39 | such a window holds the frame's own line, at most 5 lines in, and spans at most 11 lines; with `0..5` the frame's line comes first |
| HeuristicPresenter.ArityMessagesCarryCounts | lib/error_to_communicate/format/heuristic_presenter.rb:34-40 | the text after "EXPECTED " and "SENT " reads back as the expected and received counts |
| ExceptionFormatTerminal.Header | lib/error_to_communicate/heuristics/exception/format_terminal.rb:11-16 | one line, starting with the class name and ending in the reset; equal to the catch-all presenter's header |
| ExceptionFormatTerminal.HelpfulInfo | lib/error_to_communicate/heuristics/exception/format_terminal.rb:18-24 | raises iff the backtrace is empty; one window on frame 0 highlighting its label, `-5..5`, no message, code emphasis, no working directory |
| ExceptionFormatTerminal.AgreesWithPresenter | lib/error_to_communicate/heuristics/exception/format_terminal.rb:18-24 | the same request as the catch-all presenter's, except for the working directory |
| FormatTerminal.AfterSeparator | lib/error_to_communicate/format_terminal.rb:39-40 | the separator line in front of the content's render, or the content's error unchanged |
| FormatTerminal.Decorate | lib/error_to_communicate/format_terminal.rb:49-53 | the theme function applied to the content's render, or the content's error unchanged |
| FormatTerminal.Format | lib/error_to_communicate/format_terminal.rb:33-58 | `format`; no contract of its own, specified by `FormatTerminal.FormatSucceedsIffRenderable` and the rule lemmas below |
| FormatTerminal.Call | lib/error_to_communicate/format_terminal.rb:21-27 | a literal summary makes the list read as an unknown meaning and raise; success needs all three sections to render |
| FormatTerminal.FormatAllRendersEach | lib/error_to_communicate/format_terminal.rb:38 | `map` finishes only when every node renders |
| FormatTerminal.LeafRules | lib/error_to_communicate/format_terminal.rb:33-58 | a literal renders as itself, `:null` as `''`, `:separator` as the theme's separator line |
| FormatTerminal.RaisingRules | lib/error_to_communicate/format_terminal.rb:36-56 | an unknown tag, an empty list and a list headed by a literal raise "Wat is ...?"; a literal backtrace content raises on `any?` |
| FormatTerminal.DecorationRule | lib/error_to_communicate/format_terminal.rb:49-53 | `:classname`, `:message`, `:explanation`, `:context` and `:details` apply their theme function to the content's render, or pass its error on |
| FormatTerminal.ColumnsRule | lib/error_to_communicate/format_terminal.rb:48 | when every column renders, `:columns` is the theme's layout of their renders, in order |
| FormatTerminal.CodeWindowRule | lib/error_to_communicate/format_terminal.rb:54 | `:code` is what `Code#call` returns; its raise becomes the render's error |
| FormatTerminal.FormatAll | lib/error_to_communicate/format_terminal.rb:38 | `map { format }` gives one render per node |
| FormatTerminal.FormatSucceedsIffRenderable | lib/error_to_communicate/format_terminal.rb:33-58 | `format` raises on a tree exactly when it is not renderable: an unknown tag, a list starting with a literal or empty, a literal backtrace content, or a failing code window |
| FormatTerminal.FormatAllSucceedsIffRenderable | lib/error_to_communicate/format_terminal.rb:38 | a list's renders succeed exactly when every node is renderable |
| FormatTerminal.UnknownTagNotRenderable | lib/error_to_communicate/format_terminal.rb:56 | a tree with an unknown tag anywhere is not renderable |
| FormatTerminal.UnknownTagRaises | lib/error_to_communicate/format_terminal.rb:56 | a tree with an unknown tag anywhere raises and yields no text |
| FormatTerminal.Renders | lib/error_to_communicate/format_terminal.rb:38 | the renders of nodes that all render, one per node, in order |
| FormatTerminal.FormatAllValues | lib/error_to_communicate/format_terminal.rb:38 | when every node renders, `map` yields exactly their renders in order |
| FormatTerminal.ListIsConcatenation | lib/error_to_communicate/format_terminal.rb:38 | a list renders as the concatenation of its nodes' renders |
| FormatTerminal.SectionsOpenWithSeparator | lib/error_to_communicate/format_terminal.rb:39-43 | summary, heuristic and non-empty backtrace render as the separator line followed by their content |
| FormatTerminal.EmptyBacktrace | lib/error_to_communicate/format_terminal.rb:44-45 | an empty backtrace renders as the separator and "No backtrace available" as a message |
| FormatTerminal.CallConcatenatesSections | lib/error_to_communicate/format_terminal.rb:21-27 | `call` is summary, info and backtrace rendered one after the other |
| Code.BoundNum | lib/error_to_communicate/format_terminal.rb:122-126 | the larger of `num` and `min` |
| Code.SettingsOf | lib/error_to_communicate/format_terminal.rb:70-82 | window bounds are the context offsets clamped at 0; the frame's line sits at `message_offset`; defaults for highlight, message and mark |
| Code.PathToDir | lib/error_to_communicate/format_terminal.rb:116-120 | the relative directory, or the path itself when `relative_path_from` raises |
| Code.PathLine | lib/error_to_communicate/format_terminal.rb:85-90 | the header line; no contract of its own, `Code.Window` states that every window starts with it |
| Code.CodeText | lib/error_to_communicate/format_terminal.rb:93-99 | the code from an existing file: raises `NilSlice` exactly when the window starts past the end of the file, and otherwise raises only `NoLineAtOffset` |
| Code.CodeOf | lib/error_to_communicate/format_terminal.rb:93-102 | the placeholder for a missing file; for an existing one, `NilSlice` exactly when the window starts past its end; never any other error than those two |
| Code.Assemble | lib/error_to_communicate/format_terminal.rb:104-113 | raises iff the emphasis is missing; code emphasis joins header and code; path emphasis gives the underlined header, then the code indented by six spaces, desaturated and highlighted again |
| Code.Window | lib/error_to_communicate/format_terminal.rb:69-114 | a missing file gives the header and the placeholder; every window starts with its (underlined, for path emphasis) header line |
| Code.ReadCode | lib/error_to_communicate/format_terminal.rb:93-99 | the reassignment pipeline computes the specified code text, or its error |
| Code.Call | lib/error_to_communicate/format_terminal.rb:69-114 | `Code#call` computes exactly the specified window, or its error |
| Code.ExcerptLineCount | lib/error_to_communicate/format_terminal.rb:74-94 | in a long enough file the window holds exactly `end_index - start_index + 1` lines, from `start_index` |
| Code.UnmarkedWindow | lib/error_to_communicate/format_terminal.rb:78-82 | with `mark: false` no line gets the `-> ` marker |
| Code.MarkedLineIsFrameLine | lib/error_to_communicate/format_terminal.rb:138-145 | with marking on, a line gets `-> ` iff its number is the frame's line number |
| CodeLines.RubyIndex | lib/error_to_communicate/format_terminal.rb:152 | `lines[offset]`: defined iff `-n <= offset < n`; negative offsets count from the end |
| CodeLines.RubySlice | lib/error_to_communicate/format_terminal.rb:94 | `lines[s..e]` is nil iff `s` is past the end, else the lines from `s` to `e` that exist |
| CodeLines.LeadingRun | lib/error_to_communicate/format_terminal.rb:129 | `^[ \r\t]*` at a line: the longest prefix of those characters |
| CodeLines.FirstShortest | lib/error_to_communicate/format_terminal.rb:129 | `min_by(&:length)`: a shortest run, and the first of the shortest |
| CodeLines.Indentation | lib/error_to_communicate/format_terminal.rb:129 | the indentation removed is the leading run of some line, no longer than any line's, and strictly shorter than the runs of all lines before it (the first of the shortest) |
| CodeLines.Dedent | lib/error_to_communicate/format_terminal.rb:130 | every line that starts with the indentation loses it; others are kept |
| CodeLines.RemoveIndentation | lib/error_to_communicate/format_terminal.rb:128-131 | `remove_indentation`; no contract of its own, specified by `CodeLines.FlushCodeUnchanged`, `CodeLines.UniformIndentationRemoved` and `CodeLines.DedentRemovesOnlyIndentation` |
| CodeLines.DedentRemovesOnlyIndentation | lib/error_to_communicate/format_terminal.rb:128-131 | dedenting removes only leading indentation characters: none, or exactly the indentation |
| CodeLines.UniformIndentationRemoved | lib/error_to_communicate/format_terminal.rb:128-131 | lines sharing one indentation, one of them flush after it, come back as their texts |
| CodeLines.UniformIndentation | lib/error_to_communicate/format_terminal.rb:129 | under those conditions the indentation chosen is the shared one |
| CodeLines.FlushCodeUnchanged | lib/error_to_communicate/format_terminal.rb:128-131 | text with a line that starts flush is left unchanged |
| CodeLines.LinenoLabel | lib/error_to_communicate/format_terminal.rb:140-145 | `"-> N:"` or `"   N:"`, padded with spaces on the right to the width |
| CodeLines.MarkerIffMarked | lib/error_to_communicate/format_terminal.rb:140-144 | a label starts with `-> ` iff its number is the line to mark |
| CodeLines.Prefixes | lib/error_to_communicate/format_terminal.rb:138-146 | one coloured prefix per line, line k numbered `start + k` |
| CodeLines.Prefixed | lib/error_to_communicate/format_terminal.rb:146 | each line behind its prefix and a space |
| CodeLines.PrefixLinenos | lib/error_to_communicate/format_terminal.rb:133-148 | `prefix_linenos_to`; no contract of its own, specified by `CodeLines.PrefixLinenosKeepsLines`, `CodeLines.LinenoLabelWidth` and `Code.MarkedLineIsFrameLine` |
| CodeLines.PrefixLinenosKeepsLines | lib/error_to_communicate/format_terminal.rb:133-148 | numbered text splits into as many lines as the input, line k being input line k behind the prefix of number `start + k` |
| CodeLines.LinenoLabelWidth | lib/error_to_communicate/format_terminal.rb:136-144 | every label is exactly `max_linenum.to_s.length + 4` wide |
| CodeLines.MessageAdded | lib/error_to_communicate/format_terminal.rb:150-154 | raises iff there is no line at the offset |
| CodeLines.AddMessageTo | lib/error_to_communicate/format_terminal.rb:150-154 | the array-and-loop version computes what `MessageAdded` specifies |
| CodeLines.JoinArray | lib/error_to_communicate/format_terminal.rb:153 | `lines.join("")` over the array is the concatenation of its elements |
| CodeLines.MessageKeepsOtherLines | lib/error_to_communicate/format_terminal.rb:150-154 | after the message is added, the same number of lines; the offset line is chomped plus " message\n"; every other line is unchanged |
| CodeLines.AddMessageAsWritten | lib/error_to_communicate/format_terminal.rb:150-154 | as written: raises `NoLineAtOffset` iff there is no line at the offset; raises `ChompReturnedNil` when that line ends in neither `\n` nor `\r`; otherwise the same text as the corrected version |
| CodeLines.UnterminatedLineRaises | lib/error_to_communicate/format_terminal.rb:152 | as written, a line with no line break at its end raises |
| CodeLines.UnterminatedLineExample | lib/error_to_communicate/format_terminal.rb:152 | "x = 1" without a final newline: as written it raises, the corrected version gives "x = 1 m\n" |
| Text.Lines | lib/error_to_communicate/format_terminal.rb:135 | `String#lines`: joining the lines gives the text back; each holds a newline only at its end, and all but the last end in one |
| Text.LinesOfJoin | lib/error_to_communicate/format_terminal.rb:151-153 | splitting a join of lines gives back exactly those lines |
| Text.Chomp | lib/error_to_communicate/format_terminal.rb:152 | a prefix of the line, shorter by 2 after `\r\n`, by 1 after a lone `\n` or `\r`, and unchanged without either; a line keeps no `\n` |
| Text.LJust | lib/error_to_communicate/format_terminal.rb:141 | `ljust(w)`: the string, then spaces up to width `w` |
| Text.IntToString | lib/error_to_communicate/format_terminal.rb:137 | `Integer#to_s`: decimal digits whose value is the number, with no leading zero, after a `-` exactly for a negative number |
| Text.IntToStringOfNat | lib/error_to_communicate/format_terminal.rb:137 | on a number that is not negative `to_s` is the plain digit string |
| Text.DigitsMonotone | lib/error_to_communicate/format_terminal.rb:136-137 | a larger line number never has fewer digits, so the last one sets the width |

## Left out

- The theme: its colours and decorations are uninterpreted fields of `Theme.Theme`. So are syntax highlighting (Rouge), `highlight_text`, `indent`, `desaturate` and `columns`. No property depends on what they do, except that the number colourings add no line breaks (`CodeLines.PlainLinenos`, a hypothesis).
- The file system and `Pathname`: `File.read`, `exist?`, `basename` and `expand_path.relative_path_from(...).dirname` are the functions of `Code.Host`. An I/O error other than a missing file is not modelled.
- `Backtrace.parse`, `ExceptionInfo.parseable?` and `ExceptionInfo.parse` are parameters (`parseBacktrace`, `Classifier.Parser`). Their code is not part of this model.
- The heuristics' `for?` methods and their fields (`explanation`, `num_expected`, `num_received`, `undefined_method_name`) are parameters. Only the catch-all's `for?` is fixed, to always true.
- `display_location` (format/terminal_helpers.rb) is not part of this model. A presenter's request is the attribute hash itself, with the key spelled `emphasisis` as in the presenters. How that key reaches `Code#call`, which fetches `:emphasis`, is not modelled.
- `Config.default` (a lazily memoised singleton) and `Config#format` (a call to `format_with` with the theme) are not modelled.
- Classifier.Config.constructor: does not model the `theme` and `format_with` options, since neither takes part in classification.
- Code.Window: uses the corrected `add_message_to`, so it never raises the `NoMethodError` that `chomp!` returning nil causes at format_terminal.rb:152; the code as written is `CodeLines.AddMessageAsWritten` and `CodeLines.UnterminatedLineRaises`.
- Code.ReadCode: calls the corrected `add_message_to`, so the `chomp!`-nil raise of format_terminal.rb:152 is not among its errors.
- Code.Call: as `Code.Window`, which it computes; the `chomp!`-nil raise is not modelled in the window.
- CodeLines.MessageAdded: the corrected `add_message_to`; a line without a final line break gets the message instead of raising as format_terminal.rb:152 does.
- CodeLines.AddMessageTo: computes `CodeLines.MessageAdded`, the corrected version, not the raise of format_terminal.rb:152.
- The class method `FormatTerminal.call` and `initialize` are not modelled separately: the attributes they fetch are the fields of `FormatTerminal.Env`.
- `parse.rb` is not modelled: it only loads the parsers.
- Regex anchors: `^` and `$` are matched at the ends of the whole message, so a message is treated as one line. For a multi-line message, Ruby would also match them at inner line breaks.
- A `:code` node in a tree holds a `Code.CodeRequest`, that is a hash with `location` and `context` present. A hash without those keys (a `KeyError`) cannot be written.
- A tree is typed. A non-array value is a `Literal` string, and an array starting with a symbol outside the vocabulary is `Unknown`. Other Ruby values in those places (`nil`, numbers, a hash) are not distinguished.

## Findings

| source | as written | input that shows it | evidently intended | confidence | as-written member | corrected member |
|---|---|---|---|---|---|---|
| lib/error_to_communicate/format_terminal.rb:152 | `lines[offset].chomp! << " " << message << "\n"` sends `<<` to what `chomp!` returns, and that is nil when the line has no final line break | a window whose frame line is the last line of a file that does not end in a newline, e.g. the file "x = 1" at offset 0 | chomp the line if it ends in a line break, then append the message; `"x = 1 m\n"` | medium, not executed | CodeLines.UnterminatedLineRaises | CodeLines.MessageKeepsOtherLines |
