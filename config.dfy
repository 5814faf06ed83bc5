/**
 * `Config` (lib/error_to_communicate/config.rb): the configuration object
 * that decides whether an exception is handled, and by which heuristic.
 */
module Classifier {
  import opened Wrappers
  import opened ExceptionInfo

  /** The heuristic classes the default catalog names; others may be configured. */
  datatype HeuristicName =
    | WrongNumberOfArgumentsHeuristic
    | NoMethodErrorHeuristic
    | ExceptionHeuristic
    | OtherHeuristic(name: string)

  /** A heuristic class: its name and its classifier `for?`. */
  datatype Heuristic = Heuristic(name: HeuristicName, isFor: ExceptionInfo -> bool)

  /**
   * `heuristic.new(einfo)`: the chosen heuristic, identified by its position
   * in the configured list, constructed from the parsed exception.
   */
  datatype Instance = Instance(position: nat, name: HeuristicName, info: ExceptionInfo)

  /** `ExceptionInfo.parseable?` and `ExceptionInfo.parse`, which this model does not see. */
  datatype Parser = Parser(parseable: RawException -> bool, parse: RawException -> ExceptionInfo)

  /** The classifiers `for?` of the two specific default heuristics, which this model does not see. */
  datatype Catalog = Catalog(
    wrongNumberOfArgumentsFor: ExceptionInfo -> bool,
    noMethodErrorFor: ExceptionInfo -> bool)

  /** The options hash given to `Config.new`; `None` when the key is absent. */
  datatype Options = Options(
    heuristics: Option<seq<Heuristic>>,
    blacklist: Option<ExceptionInfo -> bool>)

  /** `raise ArgumentError, "Asked for a heuristic on an object we don't accept: ..."`. */
  datatype ClassifyError = NotAccepted(exception: RawException)

  /** `DEFAULT_HEURISTICS`: the two specific heuristics, then the catch-all, whose `for?` always holds. */
  function DefaultHeuristics(catalog: Catalog): (hs: seq<Heuristic>)
    ensures |hs| == 3
    ensures hs[0].name == WrongNumberOfArgumentsHeuristic && hs[0].isFor == catalog.wrongNumberOfArgumentsFor
    ensures hs[1].name == NoMethodErrorHeuristic && hs[1].isFor == catalog.noMethodErrorFor
    ensures hs[2].name == ExceptionHeuristic && IsCatchAll(hs[2])
  {
    [ Heuristic(WrongNumberOfArgumentsHeuristic, catalog.wrongNumberOfArgumentsFor),
      Heuristic(NoMethodErrorHeuristic, catalog.noMethodErrorFor),
      Heuristic(ExceptionHeuristic, _ => true) ]
  }

  /** A heuristic that claims every exception. */
  ghost predicate IsCatchAll(h: Heuristic) {
    forall e :: h.isFor(e)
  }

  /** `DEFAULT_BLACKLIST`: rejects exactly the `SystemExit` exceptions. */
  predicate DefaultBlacklist(einfo: ExceptionInfo) {
    einfo.classname == "SystemExit"
  }

  /** `heuristics.find { |h| h.for? einfo }`: the position of the first match, if any. */
  function Find(hs: seq<Heuristic>, einfo: ExceptionInfo): (r: Option<nat>)
    ensures r.Some? ==> r.value < |hs| && hs[r.value].isFor(einfo)
    ensures r.Some? ==> forall j :: 0 <= j < r.value ==> !hs[j].isFor(einfo)
    ensures r.None? <==> forall j :: 0 <= j < |hs| ==> !hs[j].isFor(einfo)
    decreases hs
  {
    if hs == [] then None
    else if hs[0].isFor(einfo) then Some(0)
    else
      match Find(hs[1..], einfo)
      case None =>
        assert forall j :: 1 <= j < |hs| ==> hs[j] == hs[1..][j - 1];
        None
      case Some(i) =>
        assert hs[i + 1] == hs[1..][i];
        assert forall j :: 1 <= j <= i ==> hs[j] == hs[1..][j - 1];
        Some(i + 1)
  }

  class Config {
    var heuristics: seq<Heuristic>
    var blacklist: ExceptionInfo -> bool

    /** `initialize(options)`: each option falls back to its default when absent. */
    constructor (catalog: Catalog, options: Options)
      ensures heuristics == (if options.heuristics.Some? then options.heuristics.value else DefaultHeuristics(catalog))
      ensures forall e :: blacklist(e) == (if options.blacklist.Some? then options.blacklist.value(e) else DefaultBlacklist(e))
    {
      heuristics := if options.heuristics.Some? then options.heuristics.value else DefaultHeuristics(catalog);
      if options.blacklist.Some? {
        blacklist := options.blacklist.value;
      } else {
        blacklist := e => DefaultBlacklist(e);
      }
    }

    /** `heuristics=`. */
    method SetHeuristics(hs: seq<Heuristic>)
      modifies this`heuristics
      ensures heuristics == hs
    {
      heuristics := hs;
    }

    /** `blacklist=`. */
    method SetBlacklist(b: ExceptionInfo -> bool)
      modifies this`blacklist
      ensures forall e :: blacklist(e) == b(e)
    {
      blacklist := b;
    }

    /**
     * `accept?`: an exception is handled when it parses, is not
     * blacklisted and some heuristic claims it.
     */
    function Accept(parser: Parser, x: RawException): (r: bool)
      reads this
      ensures !parser.parseable(x) ==> !r
      ensures parser.parseable(x) && blacklist(parser.parse(x)) ==> !r
      ensures r <==> && parser.parseable(x)
                     && !blacklist(parser.parse(x))
                     && exists i :: 0 <= i < |heuristics| && heuristics[i].isFor(parser.parse(x))
    {
      if !parser.parseable(x) then false
      else
        var einfo := parser.parse(x);
        !blacklist(einfo) && Find(heuristics, einfo).Some?
    }

    /**
     * `heuristic_for`: the first heuristic in list order that claims the
     * parsed exception, constructed from it; raises unless accepted.
     */
    function HeuristicFor(parser: Parser, x: RawException): (r: Result<Instance, ClassifyError>)
      reads this
      ensures r.Err? <==> !Accept(parser, x)
      ensures r.Err? ==> r.error == NotAccepted(x)
      ensures r.Ok? ==> && r.value.info == parser.parse(x)
                        && r.value.position < |heuristics|
                        && r.value.name == heuristics[r.value.position].name
                        && heuristics[r.value.position].isFor(r.value.info)
                        && forall j :: 0 <= j < r.value.position ==> !heuristics[j].isFor(r.value.info)
    {
      if !Accept(parser, x) then Err(NotAccepted(x))
      else
        var einfo := parser.parse(x);
        var i := Find(heuristics, einfo).value;
        Ok(Instance(i, heuristics[i].name, einfo))
    }
  }

  /** A later match is never chosen over an earlier one. */
  lemma FirstMatchWins(c: Config, parser: Parser, x: RawException, i: nat, j: nat)
    requires i < j < |c.heuristics|
    requires parser.parseable(x) && !c.blacklist(parser.parse(x))
    requires c.heuristics[i].isFor(parser.parse(x))
    ensures c.HeuristicFor(parser, x).Ok?
    ensures c.HeuristicFor(parser, x).value.position <= i
    ensures c.HeuristicFor(parser, x).value.position != j
  {
  }

  /**
   * With a catch-all last in the list, the heuristics never veto: what is
   * parseable and not blacklisted is accepted.
   */
  lemma CatchAllAcceptsEverything(c: Config, parser: Parser, x: RawException)
    requires c.heuristics != [] && IsCatchAll(c.heuristics[|c.heuristics| - 1])
    ensures c.Accept(parser, x) <==> parser.parseable(x) && !c.blacklist(parser.parse(x))
  {
    if parser.parseable(x) && !c.blacklist(parser.parse(x)) {
      assert c.heuristics[|c.heuristics| - 1].isFor(parser.parse(x));
    }
  }

  /** The default configuration handles every parseable exception except `SystemExit`. */
  lemma DefaultAcceptance(c: Config, catalog: Catalog, parser: Parser, x: RawException)
    requires c.heuristics == DefaultHeuristics(catalog)
    requires forall e :: c.blacklist(e) == DefaultBlacklist(e)
    ensures c.Accept(parser, x) <==> parser.parseable(x) && parser.parse(x).classname != "SystemExit"
  {
    CatchAllAcceptsEverything(c, parser, x);
  }

  /**
   * Under the default configuration the arity heuristic takes precedence,
   * then the method-missing one, and the catch-all takes exactly the rest.
   */
  lemma DefaultClassification(c: Config, catalog: Catalog, parser: Parser, x: RawException)
    requires c.heuristics == DefaultHeuristics(catalog)
    requires forall e :: c.blacklist(e) == DefaultBlacklist(e)
    requires parser.parseable(x) && parser.parse(x).classname != "SystemExit"
    ensures c.HeuristicFor(parser, x).Ok?
    ensures var e := parser.parse(x);
            var name := c.HeuristicFor(parser, x).value.name;
            && (name == WrongNumberOfArgumentsHeuristic <==> catalog.wrongNumberOfArgumentsFor(e))
            && (name == NoMethodErrorHeuristic <==> !catalog.wrongNumberOfArgumentsFor(e) && catalog.noMethodErrorFor(e))
            && (name == ExceptionHeuristic <==> !catalog.wrongNumberOfArgumentsFor(e) && !catalog.noMethodErrorFor(e))
  {
    DefaultAcceptance(c, catalog, parser, x);
    var e := parser.parse(x);
    var p := c.HeuristicFor(parser, x).value.position;
    assert p == 0 || p == 1 || p == 2;
  }
}
