/**
 * `FormatTerminal#format` (lib/error_to_communicate/format_terminal.rb): a
 * recursive interpreter over semantic trees. A tree says what to display;
 * the theme says how it looks and `Code#call` renders code windows.
 */
module FormatTerminal {
  import opened Wrappers
  import opened Text
  import opened Theme
  import opened CodeLines
  import opened Code

  /**
   * A semantic tree. In the source a tree is either a plain value, which
   * renders as itself, or an array `[meaning, content, *rest]`:
   *  - `Literal`: any value that is not an array;
   *  - `Nodes`: an array rendered as a list, which the source recognises by
   *    its first element being an array;
   *  - one constructor per tag of the closed vocabulary;
   *  - `Unknown`: an array whose first element is a symbol outside it.
   */
  datatype Node =
    | Literal(text: string)
    | Nodes(items: seq<Node>)
    | Summary(content: Node)
    | Heuristic(content: Node)
    | Backtrace(content: Node)
    | Separator
    | Columns(columns: seq<Node>)
    | Classname(content: Node)
    | Message(content: Node)
    | Explanation(content: Node)
    | Context(content: Node)
    | Details(content: Node)
    | CodeWindow(request: CodeRequest)
    | Null
    | Unknown(tag: string)

  /** What a render can raise. */
  datatype RenderError =
    | Wat(meaning: string)      // `raise "Wat is ...?"`: the meaning is not a known tag
    | NotAList                  // `any?` called on the literal content of a backtrace
    | CodeFailed(error: CodeError)

  /** The collaborators of a render: the theme, the file system and the working directory. */
  datatype Env = Env(theme: Theme, host: Host, cwd: string)

  const NoBacktrace: string := "No backtrace available"

  /** `format([:separator]) + format(content)`. */
  function AfterSeparator(env: Env, rendered: Result<string, RenderError>): (r: Result<string, RenderError>)
    ensures r.Ok? <==> rendered.Ok?
    ensures r.Ok? ==> r.value == env.theme.separatorLine + rendered.value
    ensures r.Err? ==> r == rendered
  {
    match rendered
    case Ok(s) => Ok(env.theme.separatorLine + s)
    case Err(e) => Err(e)
  }

  function Decorate(f: string -> string, rendered: Result<string, RenderError>): (r: Result<string, RenderError>)
    ensures r.Ok? <==> rendered.Ok?
    ensures r.Ok? ==> r.value == f(rendered.value)
    ensures r.Err? ==> r == rendered
  {
    match rendered
    case Ok(s) => Ok(f(s))
    case Err(e) => Err(e)
  }

  /** The meaning the source's error message names for a list it cannot render. */
  function ListMeaning(items: seq<Node>): string {
    if items == [] then "nil" else if items[0].Literal? then items[0].text else ""
  }

  /** `format(semantic_content)`. */
  function Format(env: Env, n: Node): Result<string, RenderError>
    decreases n
  {
    match n
    case Literal(text) => Ok(text)
    case Nodes(items) =>
      if items == [] || items[0].Literal? then Err(Wat(ListMeaning(items)))
      else
        (match FormatAll(env, items)
         case Ok(parts) => Ok(Join(parts))
         case Err(e) => Err(e))
    case Summary(content) => AfterSeparator(env, Format(env, content))
    case Heuristic(content) => AfterSeparator(env, Format(env, content))
    case Backtrace(content) =>
      if content.Literal? then Err(NotAList)
      else if content.Nodes? && content.items == [] then
        Ok(env.theme.separatorLine + env.theme.message(NoBacktrace))
      else AfterSeparator(env, Format(env, content))
    case Separator => Ok(env.theme.separatorLine)
    case Columns(columns) =>
      (match FormatAll(env, columns)
       case Ok(parts) => Ok(env.theme.columns(parts))
       case Err(e) => Err(e))
    case Classname(content) => Decorate(env.theme.classname, Format(env, content))
    case Message(content) => Decorate(env.theme.message, Format(env, content))
    case Explanation(content) => Decorate(env.theme.explanation, Format(env, content))
    case Context(content) => Decorate(env.theme.context, Format(env, content))
    case Details(content) => Decorate(env.theme.details, Format(env, content))
    case CodeWindow(request) =>
      (match Window(env.theme, env.host, env.cwd, request)
       case Ok(s) => Ok(s)
       case Err(e) => Err(CodeFailed(e)))
    case Null => Ok("")
    case Unknown(tag) => Err(Wat(tag))
  }

  /** `map { |c| format c }`: renders every node in order; the first failure is raised. */
  function FormatAll(env: Env, items: seq<Node>): (r: Result<seq<string>, RenderError>)
    ensures r.Ok? ==> |r.value| == |items|
    decreases items
  {
    if items == [] then Ok([])
    else
      match Format(env, items[0])
      case Err(e) => Err(e)
      case Ok(first) =>
        match FormatAll(env, items[1..])
        case Err(e) => Err(e)
        case Ok(rest) => Ok([first] + rest)
  }

  /** `map` finishes only when every node renders. */
  lemma {:induction false} FormatAllRendersEach(env: Env, items: seq<Node>)
    ensures FormatAll(env, items).Ok? ==> forall i :: 0 <= i < |items| ==> Format(env, items[i]).Ok?
    decreases items
  {
    if items != [] {
      FormatAllRendersEach(env, items[1..]);
      assert forall i :: 1 <= i < |items| ==> items[i] == items[1..][i - 1];
    }
  }

  /** `FormatTerminal#call`: the summary, the helpful info and the backtrace, as one list. */
  function Call(env: Env, summary: Node, info: Node, backtrace: Node): (r: Result<string, RenderError>)
    // a literal at the head makes the list read as `[meaning, ...]` with an unknown meaning
    ensures summary.Literal? ==> r == Err(Wat(summary.text))
    ensures r.Ok? ==> Format(env, summary).Ok? && Format(env, info).Ok? && Format(env, backtrace).Ok?
  {
    var items := [summary, info, backtrace];
    FormatAllRendersEach(env, items);
    assert items[0] == summary && items[1] == info && items[2] == backtrace;
    assert Format(env, Nodes(items)).Ok? ==> FormatAll(env, items).Ok?;
    Format(env, Nodes(items))
  }

  // -----------------------------------------------------------------------
  // Which trees render
  // -----------------------------------------------------------------------

  /**
   * The trees that render without raising, defined independently of
   * `Format`: no unknown tag anywhere, every list starts with a node, every
   * backtrace's content is a list or a node, and every code window renders.
   */
  ghost predicate Renderable(env: Env, n: Node)
    decreases n
  {
    match n
    case Literal(_) => true
    case Nodes(items) =>
      items != [] && !items[0].Literal? && forall i :: 0 <= i < |items| ==> Renderable(env, items[i])
    case Summary(content) => Renderable(env, content)
    case Heuristic(content) => Renderable(env, content)
    case Backtrace(content) =>
      !content.Literal? && ((content.Nodes? && content.items == []) || Renderable(env, content))
    case Separator => true
    case Columns(columns) => forall i :: 0 <= i < |columns| ==> Renderable(env, columns[i])
    case Classname(content) => Renderable(env, content)
    case Message(content) => Renderable(env, content)
    case Explanation(content) => Renderable(env, content)
    case Context(content) => Renderable(env, content)
    case Details(content) => Renderable(env, content)
    case CodeWindow(request) => Window(env.theme, env.host, env.cwd, request).Ok?
    case Null => true
    case Unknown(_) => false
  }

  /** A render succeeds exactly on the renderable trees. */
  lemma {:induction false} FormatSucceedsIffRenderable(env: Env, n: Node)
    ensures Format(env, n).Ok? <==> Renderable(env, n)
    decreases n
  {
    match n
    case Literal(_) =>
    case Nodes(items) => FormatAllSucceedsIffRenderable(env, items);
    case Summary(content) => FormatSucceedsIffRenderable(env, content);
    case Heuristic(content) => FormatSucceedsIffRenderable(env, content);
    case Backtrace(content) => FormatSucceedsIffRenderable(env, content);
    case Separator =>
    case Columns(columns) => FormatAllSucceedsIffRenderable(env, columns);
    case Classname(content) => FormatSucceedsIffRenderable(env, content);
    case Message(content) => FormatSucceedsIffRenderable(env, content);
    case Explanation(content) => FormatSucceedsIffRenderable(env, content);
    case Context(content) => FormatSucceedsIffRenderable(env, content);
    case Details(content) => FormatSucceedsIffRenderable(env, content);
    case CodeWindow(_) =>
    case Null =>
    case Unknown(_) =>
  }

  lemma {:induction false} FormatAllSucceedsIffRenderable(env: Env, items: seq<Node>)
    ensures FormatAll(env, items).Ok? <==> forall i :: 0 <= i < |items| ==> Renderable(env, items[i])
    decreases items
  {
    if items != [] {
      FormatSucceedsIffRenderable(env, items[0]);
      FormatAllSucceedsIffRenderable(env, items[1..]);
      assert forall i :: 1 <= i < |items| ==> items[i] == items[1..][i - 1];
    }
  }

  /** The tree holds a node with a tag outside the vocabulary. */
  ghost predicate HasUnknownTag(n: Node)
    decreases n
  {
    match n
    case Unknown(_) => true
    case Nodes(items) => exists i :: 0 <= i < |items| && HasUnknownTag(items[i])
    case Columns(columns) => exists i :: 0 <= i < |columns| && HasUnknownTag(columns[i])
    case Summary(content) => HasUnknownTag(content)
    case Heuristic(content) => HasUnknownTag(content)
    case Backtrace(content) => HasUnknownTag(content)
    case Classname(content) => HasUnknownTag(content)
    case Message(content) => HasUnknownTag(content)
    case Explanation(content) => HasUnknownTag(content)
    case Context(content) => HasUnknownTag(content)
    case Details(content) => HasUnknownTag(content)
    case _ => false
  }

  lemma {:induction false} UnknownTagNotRenderable(env: Env, n: Node)
    requires HasUnknownTag(n)
    ensures !Renderable(env, n)
    decreases n
  {
    match n
    case Unknown(_) =>
    case Nodes(items) =>
      var i :| 0 <= i < |items| && HasUnknownTag(items[i]);
      UnknownTagNotRenderable(env, items[i]);
    case Columns(columns) =>
      var i :| 0 <= i < |columns| && HasUnknownTag(columns[i]);
      UnknownTagNotRenderable(env, columns[i]);
    case Summary(content) => UnknownTagNotRenderable(env, content);
    case Heuristic(content) => UnknownTagNotRenderable(env, content);
    case Backtrace(content) => UnknownTagNotRenderable(env, content);
    case Classname(content) => UnknownTagNotRenderable(env, content);
    case Message(content) => UnknownTagNotRenderable(env, content);
    case Explanation(content) => UnknownTagNotRenderable(env, content);
    case Context(content) => UnknownTagNotRenderable(env, content);
    case Details(content) => UnknownTagNotRenderable(env, content);
  }

  /**
   * The vocabulary is closed: a tree with an unknown tag anywhere in it
   * raises, and so yields no text at all, whatever the rest of the tree.
   */
  lemma UnknownTagRaises(env: Env, n: Node)
    requires HasUnknownTag(n)
    ensures Format(env, n).Err?
  {
    UnknownTagNotRenderable(env, n);
    FormatSucceedsIffRenderable(env, n);
  }

  // -----------------------------------------------------------------------
  // The rendering rules, node by node
  // -----------------------------------------------------------------------

  /** The renders of nodes that all render, in order. */
  function Renders(env: Env, items: seq<Node>): (r: seq<string>)
    requires forall i :: 0 <= i < |items| ==> Format(env, items[i]).Ok?
    ensures |r| == |items|
    ensures forall i :: 0 <= i < |items| ==> r[i] == Format(env, items[i]).value
    decreases items
  {
    if items == [] then []
    else
      assert forall i :: 1 <= i < |items| ==> items[i] == items[1..][i - 1];
      [Format(env, items[0]).value] + Renders(env, items[1..])
  }

  lemma {:induction false} FormatAllValues(env: Env, items: seq<Node>)
    requires forall i :: 0 <= i < |items| ==> Format(env, items[i]).Ok?
    ensures FormatAll(env, items) == Ok(Renders(env, items))
    decreases items
  {
    if items != [] {
      assert forall i :: 1 <= i < |items| ==> items[i] == items[1..][i - 1];
      FormatAllValues(env, items[1..]);
    }
  }

  /** A list renders as the concatenation of its renders, in order. */
  lemma ListIsConcatenation(env: Env, items: seq<Node>)
    requires items != [] && !items[0].Literal?
    requires forall i :: 0 <= i < |items| ==> Format(env, items[i]).Ok?
    ensures Format(env, Nodes(items)) == Ok(Join(Renders(env, items)))
  {
    FormatAllValues(env, items);
  }

  /** Summary, heuristic and non-empty backtrace sections open with the separator line. */
  lemma SectionsOpenWithSeparator(env: Env, content: Node)
    requires Format(env, content).Ok?
    ensures Format(env, Summary(content)) == Ok(env.theme.separatorLine + Format(env, content).value)
    ensures Format(env, Heuristic(content)) == Ok(env.theme.separatorLine + Format(env, content).value)
    ensures !content.Literal? && !(content.Nodes? && content.items == []) ==>
              Format(env, Backtrace(content)) == Ok(env.theme.separatorLine + Format(env, content).value)
  {
  }

  /** An empty backtrace renders as the separator and the fallback message. */
  lemma EmptyBacktrace(env: Env)
    ensures Format(env, Backtrace(Nodes([]))) ==
              Ok(env.theme.separatorLine + env.theme.message("No backtrace available"))
  {
  }

  /** The leaves render as fixed text. */
  lemma LeafRules(env: Env, t: string)
    ensures Format(env, Literal(t)) == Ok(t)
    ensures Format(env, Null) == Ok("")
    ensures Format(env, Separator) == Ok(env.theme.separatorLine)
  {
  }

  /** An unknown tag, a list that does not start with a node, and a literal backtrace raise. */
  lemma RaisingRules(env: Env, t: string, tag: string, rest: seq<Node>)
    ensures Format(env, Unknown(tag)) == Err(Wat(tag))
    // a list must start with a node: `[]` and `["text", ...]` have a head that is no tag
    ensures Format(env, Nodes([])) == Err(Wat("nil"))
    ensures Format(env, Nodes([Literal(t)] + rest)) == Err(Wat(t))
    // `any?` is not defined on a literal
    ensures Format(env, Backtrace(Literal(t))) == Err(NotAList)
  {
  }

  /**
   * A decoration applies its theme function to the rendered content, or
   * passes the content's error on.
   */
  lemma DecorationRule(env: Env, content: Node, n: Node, f: string -> string)
    requires || (n == Classname(content) && f == env.theme.classname)
             || (n == Message(content) && f == env.theme.message)
             || (n == Explanation(content) && f == env.theme.explanation)
             || (n == Context(content) && f == env.theme.context)
             || (n == Details(content) && f == env.theme.details)
    ensures Format(env, content).Ok? ==> Format(env, n) == Ok(f(Format(env, content).value))
    ensures Format(env, content).Err? ==> Format(env, n) == Format(env, content)
  {
    assert Format(env, n) == Decorate(f, Format(env, content));
  }

  /** Columns are laid out by the theme from the renders of the columns. */
  lemma ColumnsRule(env: Env, columns: seq<Node>)
    requires forall i :: 0 <= i < |columns| ==> Format(env, columns[i]).Ok?
    ensures Format(env, Columns(columns)) == Ok(env.theme.columns(Renders(env, columns)))
  {
    FormatAllValues(env, columns);
  }

  /** A code window is what `Code#call` gives; its raise becomes a formatting error. */
  lemma CodeWindowRule(env: Env, req: CodeRequest)
    ensures var w := Window(env.theme, env.host, env.cwd, req);
            w.Ok? ==> Format(env, CodeWindow(req)) == Ok(w.value)
    ensures var w := Window(env.theme, env.host, env.cwd, req);
            w.Err? ==> Format(env, CodeWindow(req)) == Err(CodeFailed(w.error))
  {
  }

  lemma JoinOfThree(parts: seq<string>, a: string, b: string, c: string)
    requires parts == [a, b, c]
    ensures Join(parts) == a + b + c
  {
    assert parts[1..] == [b, c];
    assert parts[1..][1..] == [c];
    assert Join([c]) == c;
  }

  /** `FormatTerminal#call` is the three sections rendered one after the other. */
  lemma CallConcatenatesSections(env: Env, summary: Node, info: Node, backtrace: Node)
    requires !summary.Literal?
    requires Format(env, summary).Ok? && Format(env, info).Ok? && Format(env, backtrace).Ok?
    ensures Call(env, summary, info, backtrace) ==
              Ok(Format(env, summary).value + Format(env, info).value + Format(env, backtrace).value)
  {
    var items := [summary, info, backtrace];
    var a, b, c := Format(env, summary).value, Format(env, info).value, Format(env, backtrace).value;
    ListIsConcatenation(env, items);
    JoinOfThree(Renders(env, items), a, b, c);
  }
}
