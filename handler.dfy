/**
 * utils/handler.ts: request validation and command dispatch.  A command is
 * looked up in the registry; an unknown command is reported, a handler's
 * response is passed through, and a handler's throw is caught and turned into
 * a failure response, except for the exact command `expense`, whose handler
 * runs outside the catch.
 */
module Handler {
  import opened Wrappers
  import opened Text
  import opened Types
  import opened Registry

  /** What `processCommand` settles to: a response, or a throw that escapes it. */
  datatype DispatchResult = Responded(response: Response) | Escaped(error: Option<string>)

  /** The message reported when the thrown value is not an `Error`. */
  const GenericError := "An error occurred while processing your command"

  /** The failure response for an unknown command, in the caller's own spelling. */
  function UnknownCommand(command: string): (r: Response)
    ensures !r.success && r.data.None? && r.action.None?
    ensures r.message == "Unknown command: " + command
  {
    Failed("Unknown command: " + command)
  }

  class ShortcutsHandler {
    const registry: CommandRegistry

    /** `new ShortcutsHandler()`, with the registry's default handlers as parameters. */
    constructor(ping: Handler, diary: Handler)
      ensures fresh(registry)
      ensures registry.commands == map["ping" := ping, "diary" := diary]
      ensures registry.Valid()
    {
      registry := new CommandRegistry(ping, diary);
    }

    /**
     * `validateRequest(req)`, with the configured `API_KEY` as a parameter
     * (`None` when it is unset): the request is valid exactly when its key
     * equals the configured one.
     */
    static function ValidateRequest(req: ShortcutsRequest, configuredKey: Option<string>): (valid: bool)
      ensures valid <==> configuredKey == Some(req.apiKey)
      ensures configuredKey.None? ==> !valid
    {
      match configuredKey
      case None => false
      case Some(key) => req.apiKey == key
    }

    /**
     * `processCommand(command, parameters)`.  The handler is the one the
     * registry finds for `command`, applied once to `parameters`; when there
     * is none, no handler runs and the result names the command as given.
     */
    function ProcessCommand(command: string, parameters: Params): (r: DispatchResult)
      reads registry
      ensures registry.GetCommand(command).None? ==> r == Responded(UnknownCommand(command))
      ensures registry.GetCommand(command).Some? ==>
                match registry.GetCommand(command).value(parameters)
                case Returned(response) => r == Responded(response)
                case Threw(error) =>
                  if command == "expense" then r == Escaped(error)
                  else r == Responded(Failed(if error.Some? then error.value else GenericError))
      ensures r.Escaped? ==> command == "expense"
    {
      match registry.GetCommand(command)
      case None => Responded(UnknownCommand(command))
      case Some(handler) =>
        if command == "expense" then
          match handler(parameters)
          case Returned(response) => Responded(response)
          case Threw(error) => Escaped(error)
        else
          match handler(parameters)
          case Returned(response) => Responded(response)
          case Threw(error) => Responded(Failed(if error.Some? then error.value else GenericError))
    }
  }

  /**
   * Only the exact spelling `expense` lets a throw escape: any other spelling
   * that finds the same handler, such as `Expense`, has the throw caught.
   */
  lemma ExpenseEscapeIsCaseSensitive(h: ShortcutsHandler, command: string, parameters: Params)
    requires Lower(command) == "expense" && command != "expense"
    requires h.registry.GetCommand(command).Some?
    requires h.registry.GetCommand(command).value(parameters).Threw?
    ensures h.ProcessCommand(command, parameters).Responded?
    ensures !h.ProcessCommand(command, parameters).response.success
  {
  }

  /**
   * Two spellings with the same lower-casing reach the same handler: they
   * agree whenever neither is `expense`, except for the unknown-command
   * message, which repeats the caller's spelling.
   */
  lemma DispatchIgnoresCase(h: ShortcutsHandler, a: string, b: string, parameters: Params)
    requires Lower(a) == Lower(b) && a != "expense" && b != "expense"
    requires h.registry.GetCommand(a).Some?
    ensures h.ProcessCommand(a, parameters) == h.ProcessCommand(b, parameters)
  {
    LookupIgnoresCase(h.registry, a, b);
  }

  /** A caught throw is always reported as a failure; a returned response keeps its own `success`. */
  lemma CaughtThrowFails(h: ShortcutsHandler, command: string, parameters: Params)
    requires command != "expense"
    requires h.registry.GetCommand(command).Some?
    ensures h.ProcessCommand(command, parameters).Responded?
    ensures h.registry.GetCommand(command).value(parameters).Threw? ==>
              !h.ProcessCommand(command, parameters).response.success
  {
  }
}
