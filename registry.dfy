/**
 * utils/registry.ts: the handler registry.  Handlers are stored under the
 * lower-cased command name, a later registration overwrites an earlier one,
 * and lookup lower-cases the name it is given.  The registry also owns the
 * command parser, into which it registers every definition of the diary
 * catalog.
 */
module Registry {
  import opened Wrappers
  import opened Text
  import opened Types
  import opened Parser
  import opened ParserLemmas

  /** What a handler does when invoked: it returns a response or throws. */
  datatype HandlerOutcome =
    | Returned(response: Response)
      /** `Threw(Some(m))`: an `Error` with message `m`; `Threw(None)`: any other thrown value. */
    | Threw(error: Option<string>)

  /** A command handler, taken as an abstract function of its parameters. */
  type Handler = Params -> HandlerOutcome

  /** Every key of the handler map is already lower-cased. */
  ghost predicate LowerKeys(commands: map<string, Handler>)
  {
    forall k :: k in commands ==> Lower(k) == k
  }

  class CommandRegistry {
    var commands: map<string, Handler>
    const parser: CommandParser

    /**
     * The registry's invariant: stored names are lower-cased, and the owned
     * parser holds exactly the diary catalog.
     */
    ghost predicate Valid()
      reads this, parser
    {
      && LowerKeys(commands)
      && parser.commands == RegisterAll(map[], DiaryCommands)
    }

    /** `new CommandRegistry()`, with the ping and diary handlers as parameters. */
    constructor(ping: Handler, diary: Handler)
      ensures commands == map["ping" := ping, "diary" := diary]
      ensures fresh(parser)
      ensures Valid()
    {
      commands := map[];
      parser := new CommandParser();
      new;
      RegisterDefaultCommands(ping, diary);
      DefaultNamesAreLower(ping, diary);
    }

    /** `registerDefaultCommands`: the two handlers, then each diary definition into the parser. */
    method RegisterDefaultCommands(ping: Handler, diary: Handler)
      modifies this, parser
      ensures commands == old(commands)["ping" := ping]["diary" := diary]
      ensures parser.commands == RegisterAll(old(parser.commands), DiaryCommands)
    {
      commands := commands["ping" := ping];
      commands := commands["diary" := diary];
      RegisterDefinitions(DiaryCommands);
    }

    /** The `forEach` of `registerDefaultCommands`: each definition into the parser, in order. */
    method RegisterDefinitions(defs: seq<CommandDefinition>)
      modifies parser
      ensures parser.commands == RegisterAll(old(parser.commands), defs)
    {
      for i := 0 to |defs|
        invariant parser.commands == RegisterAll(old(parser.commands), defs[..i])
      {
        parser.RegisterCommand(defs[i]);
        RegisterAllSnoc(old(parser.commands), defs[..i], defs[i]);
        assert defs[..i + 1] == defs[..i] + [defs[i]];
      }
      assert defs[..|defs|] == defs;
    }

    /**
     * `register(command, handler)`: afterwards every name with the same
     * lower-casing finds `handler`, and every other name finds what it found
     * before.
     */
    method Register(command: string, handler: Handler)
      modifies this
      ensures commands == old(commands)[Lower(command) := handler]
      ensures forall c :: Lower(c) == Lower(command) ==> GetCommand(c) == Some(handler)
      ensures forall c :: Lower(c) != Lower(command) ==> GetCommand(c) == old(GetCommand(c))
      ensures old(Valid()) ==> Valid()
    {
      commands := commands[Lower(command) := handler];
      LowerIdempotent(command);
    }

    /** `getCommand(command)`: the handler stored under the lower-cased name, or `undefined`. */
    function GetCommand(command: string): (r: Option<Handler>)
      reads this
      ensures r.Some? <==> Lower(command) in commands
      ensures r.Some? ==> r.value == commands[Lower(command)]
    {
      if Lower(command) in commands then Some(commands[Lower(command)]) else None
    }

    /** `getParser()`: the owned parser, which holds the diary catalog while the registry is valid. */
    function GetParser(): (p: CommandParser)
      reads this, parser
      ensures p == parser
      ensures Valid() ==> p.commands == map["add" := AddCommand, "update" := UpdateCommand,
                                             "delete" := DeleteCommand, "report" := ReportCommand,
                                             "daylog" := DaylogCommand]
    {
      DiaryCatalog();
      parser
    }
  }

  lemma DefaultNamesAreLower(ping: Handler, diary: Handler)
    ensures LowerKeys(map["ping" := ping, "diary" := diary])
  {
    assert Lower("ping") == "ping";
    assert Lower("diary") == "diary";
  }

  /** Lookup ignores case: two names with the same lower-casing find the same handler. */
  lemma LookupIgnoresCase(r: CommandRegistry, a: string, b: string)
    requires Lower(a) == Lower(b)
    ensures r.GetCommand(a) == r.GetCommand(b)
  {
  }

  /**
   * In a valid registry a stored name is found under every spelling that
   * lower-cases to it, and a name whose lower-casing was never stored is not
   * found.
   */
  lemma LookupFindsStoredNames(r: CommandRegistry, c: string)
    requires r.Valid()
    ensures r.GetCommand(c).Some? <==> exists k :: k in r.commands && Lower(c) == Lower(k)
  {
    if exists k :: k in r.commands && Lower(c) == Lower(k) {
      var k :| k in r.commands && Lower(c) == Lower(k);
      assert Lower(k) == k;
    }
  }
}
