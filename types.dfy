/** The records of utils/types.ts that the command language and the dispatcher exchange. */
module Types {
  import opened Wrappers

  /** The declared type of a flag (`'string' | 'number' | 'boolean' | 'date'`). */
  datatype FlagType = StringType | NumberType | BooleanType | DateType

  /** One flag of a command: its canonical name, type, whether it is required, an optional alias. */
  datatype Flag = Flag(name: string, flagType: FlagType, required: bool, alias: Option<string>)

  /** A command of the catalog; an absent `hasId` is `false`. */
  datatype CommandDefinition = CommandDefinition(name: string, flags: seq<Flag>, hasId: bool)

  /**
   * A typed flag value.  Numbers are the result of the host's number conversion
   * (never NaN); dates are instants in milliseconds since the epoch.
   */
  datatype FlagValue = Str(s: string) | Num(n: real) | Bool(b: bool) | Date(ms: int)

  function TypeOf(v: FlagValue): FlagType
  {
    match v
    case Str(_) => StringType
    case Num(_) => NumberType
    case Bool(_) => BooleanType
    case Date(_) => DateType
  }

  /** JavaScript truthiness of a flag value. */
  predicate Truthy(v: FlagValue)
  {
    match v
    case Str(s) => s != ""
    case Num(n) => n != 0.0
    case Bool(b) => b
    case Date(_) => true
  }

  /** The result of a successful parse. */
  datatype ParsedCommand = ParsedCommand(command: string, id: Option<FlagValue>, flags: map<string, FlagValue>)

  /** The opaque `data` and `payload` of a response, as serialised JSON. */
  datatype Payload = Payload(json: string)

  datatype ActionType = Notification | OpenUrl | RunShortcut | Wait

  datatype Action = Action(actionType: ActionType, payload: Payload)

  /** `ShortcutsResponse`: the only externally observable result of a request. */
  datatype Response = Response(success: bool, message: string, data: Option<Payload>, action: Option<Action>)

  /** A response that reports a failure with only a message. */
  function Failed(message: string): Response
  {
    Response(false, message, None, None)
  }

  /** The optional string parameters a handler receives. */
  type Params = Option<map<string, string>>

  /** `ShortcutsRequest`, as validated by the transport layer. */
  datatype ShortcutsRequest = ShortcutsRequest(command: string, parameters: Params, apiKey: string)
}
