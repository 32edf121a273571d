/**
 * utils/commands/helpers/commandParser.ts: the catalog of command definitions
 * (keyed by lower-cased name, last registration wins) and `parse`, which turns
 * an instruction into a command name, an optional positional id and typed
 * flag values, or throws one of nine error messages.
 *
 * `ParseWith` and the functions before it state what `parse` computes; the
 * class `CommandParser` holds the mutable catalog and runs the same steps
 * with a loop, proved equal to `ParseWith`.
 */
module Parser {
  import opened Wrappers
  import opened Text
  import opened Tokenizer
  import opened Types

  /**
   * The host's conversions of a flag value: `Number(value)` (None when it is
   * NaN) and `new Date(value)` (None when `getTime()` is NaN), the latter as
   * milliseconds since the epoch.
   */
  datatype Conversions = Conversions(number: string -> Option<real>, date: string -> Option<int>)

  /** The mutable `flags` record of `parse`. */
  type Record = map<string, FlagValue>

  /** The catalog: definitions keyed by lower-cased command name. */
  type Catalog = map<string, CommandDefinition>

  predicate Matches(f: Flag, flagName: string)
  {
    f.name == flagName || f.alias == Some(flagName)
  }

  function Names(flags: seq<Flag>): set<string>
  {
    set f | f in flags :: f.name
  }

  /** Some flag is declared under the canonical name `k` with type `t`. */
  predicate Declares(flags: seq<Flag>, k: string, t: FlagType)
  {
    exists f :: f in flags && f.name == k && f.flagType == t
  }

  /** `definition.flags.find(f => f.name === flagName || f.alias === flagName)`. */
  function FindFlag(flags: seq<Flag>, flagName: string): (r: Option<Flag>)
    ensures r.Some? ==> exists i :: 0 <= i < |flags| && flags[i] == r.value && Matches(r.value, flagName) &&
                                   forall j :: 0 <= j < i ==> !Matches(flags[j], flagName)
    ensures r.None? ==> forall f :: f in flags ==> !Matches(f, flagName)
  {
    if flags == [] then None
    else if Matches(flags[0], flagName) then Some(flags[0])
    else
      var r := FindFlag(flags[1..], flagName);
      assert r.Some? ==> exists i :: 1 <= i < |flags| && flags[i] == r.value && Matches(r.value, flagName) &&
                                     forall j :: 0 <= j < i ==> !Matches(flags[j], flagName) by {
        if r.Some? {
          var i :| 0 <= i < |flags[1..]| && flags[1..][i] == r.value && Matches(r.value, flagName) &&
                   forall j :: 0 <= j < i ==> !Matches(flags[1..][j], flagName);
          assert flags[i + 1] == r.value;
          forall j | 0 <= j < i + 1 ensures !Matches(flags[j], flagName) {
            if j > 0 { assert flags[j] == flags[1..][j - 1]; }
          }
        }
      }
      r
  }

  predicate IsLineTerminator(c: char)
  {
    c == '\n' || c == '\r' || c == '\U{2028}' || c == '\U{2029}'
  }

  /**
   * `value.replace(/^"(.*)"$/, '$1')`: the surrounding quotes are dropped when
   * the whole value is `"..."` and nothing between them ends a line (`.`
   * matches no line terminator).
   */
  function Unquote(value: string): (r: string)
    ensures r != value <==> |value| >= 2 && value[0] == '"' && value[|value| - 1] == '"' &&
                            forall i :: 1 <= i < |value| - 1 ==> !IsLineTerminator(value[i])
    ensures r != value ==> value == "\"" + r + "\"" && forall c :: c in r ==> !IsLineTerminator(c)
  {
    if |value| >= 2 && value[0] == '"' && value[|value| - 1] == '"' &&
       forall i :: 1 <= i < |value| - 1 ==> !IsLineTerminator(value[i])
    then value[1..|value| - 1]
    else value
  }

  /** The `switch (flagDef.type)` of `parse`: the typed value, or the error thrown. */
  function Cast(fd: Flag, flagName: string, value: string, conv: Conversions): (r: Result<FlagValue, string>)
    ensures r.Success? ==> TypeOf(r.value) == fd.flagType
    ensures r.Failure? <==> (fd.flagType == NumberType && conv.number(value).None?) ||
                            (fd.flagType == DateType && conv.date(value).None?)
    ensures fd.flagType == NumberType && conv.number(value).None? ==>
              r == Failure("Invalid number for flag " + flagName + ": " + value)
    ensures fd.flagType == DateType && conv.date(value).None? ==>
              r == Failure("Invalid date for flag " + flagName + ": " + value)
    ensures fd.flagType == NumberType && conv.number(value).Some? ==> r == Success(Num(conv.number(value).value))
    ensures fd.flagType == DateType && conv.date(value).Some? ==> r == Success(Date(conv.date(value).value))
    ensures fd.flagType == BooleanType ==> r == Success(Bool(Lower(value) == "true"))
    ensures fd.flagType == StringType ==> r == Success(Str(value))
  {
    match fd.flagType
    case NumberType =>
      (match conv.number(value)
       case None => Failure("Invalid number for flag " + flagName + ": " + value)
       case Some(n) => Success(Num(n)))
    case DateType =>
      (match conv.date(value)
       case None => Failure("Invalid date for flag " + flagName + ": " + value)
       case Some(ms) => Success(Date(ms)))
    case BooleanType => Success(Bool(Lower(value) == "true"))
    case StringType => Success(Str(value))
  }

  /**
   * One round of the flag loop, at the flag token `parts[i]`: the canonical
   * name under which the value is stored and the typed value, or the error.
   */
  function ReadFlag(def: CommandDefinition, parts: seq<string>, i: nat, conv: Conversions): (r: Result<(string, FlagValue), string>)
    requires i < |parts|
    ensures !StartsWith(parts[i], "-") ==> r == Failure("Invalid flag format at: " + parts[i])
    ensures StartsWith(parts[i], "-") && FindFlag(def.flags, parts[i][1..]).None? ==>
              r == Failure("Unknown flag: " + parts[i][1..])
    ensures StartsWith(parts[i], "-") && FindFlag(def.flags, parts[i][1..]).Some? && i + 1 == |parts| ==>
              r == Failure("Missing value for flag: " + parts[i][1..])
    ensures r.Success? <==> StartsWith(parts[i], "-") && FindFlag(def.flags, parts[i][1..]).Some? && i + 1 < |parts| &&
                            Cast(FindFlag(def.flags, parts[i][1..]).value, parts[i][1..], Unquote(parts[i + 1]), conv).Success?
    ensures r.Success? ==>
              var fd := FindFlag(def.flags, parts[i][1..]).value;
              && fd in def.flags && Matches(fd, parts[i][1..])
              && r.value.0 == fd.name
              && Success(r.value.1) == Cast(fd, parts[i][1..], Unquote(parts[i + 1]), conv)
  {
    var flag := parts[i];
    if !StartsWith(flag, "-") then Failure("Invalid flag format at: " + flag)
    else
      var flagName := flag[1..];
      match FindFlag(def.flags, flagName)
      case None => Failure("Unknown flag: " + flagName)
      case Some(fd) =>
        if i + 1 >= |parts| then Failure("Missing value for flag: " + flagName)
        else
          match Cast(fd, flagName, Unquote(parts[i + 1]), conv)
          case Failure(e) => Failure(e)
          case Success(v) => Success((fd.name, v))
  }

  /**
   * The flag loop from token `i` on, with the record `rec` filled so far:
   * every key it adds is a declared flag name holding a value of the
   * declared type, and no key is removed.
   */
  function ParseFlags(def: CommandDefinition, parts: seq<string>, i: nat, rec: Record, conv: Conversions): (r: Result<Record, string>)
    ensures r.Success? ==> rec.Keys <= r.value.Keys
    ensures r.Success? ==> forall k :: k in r.value ==>
              (k in rec && r.value[k] == rec[k]) || Declares(def.flags, k, TypeOf(r.value[k]))
    decreases |parts| - i
  {
    if i >= |parts| then Success(rec)
    else
      match ReadFlag(def, parts, i, conv)
      case Failure(e) => Failure(e)
      case Success(entry) => ParseFlags(def, parts, i + 2, rec[entry.0 := entry.1], conv)
  }

  /** The first required flag, in declaration order, that has no entry in `rec`. */
  function MissingRequired(flags: seq<Flag>, rec: Record): (r: Option<string>)
    ensures r.None? <==> forall f :: f in flags && f.required ==> f.name in rec
    ensures r.Some? ==> exists i :: 0 <= i < |flags| && flags[i].required && flags[i].name == r.value &&
                                   r.value !in rec &&
                                   forall j :: 0 <= j < i ==> !flags[j].required || flags[j].name in rec
  {
    if flags == [] then None
    else if flags[0].required && flags[0].name !in rec then Some(flags[0].name)
    else
      var r := MissingRequired(flags[1..], rec);
      assert r.Some? ==> exists i :: 1 <= i < |flags| && flags[i].required && flags[i].name == r.value &&
                                     r.value !in rec &&
                                     forall j :: 0 <= j < i ==> !flags[j].required || flags[j].name in rec by {
        if r.Some? {
          var i :| 0 <= i < |flags[1..]| && flags[1..][i].required && flags[1..][i].name == r.value &&
                   r.value !in rec &&
                   forall j :: 0 <= j < i ==> !flags[1..][j].required || flags[1..][j].name in rec;
          assert flags[i + 1] == flags[1..][i];
          forall j | 0 <= j < i + 1 ensures !flags[j].required || flags[j].name in rec {
            if j > 0 { assert flags[j] == flags[1..][j - 1]; }
          }
        }
      }
      r
  }

  /** Index of the first flag token: after the command, and after the id when there is one. */
  function FlagStart(def: CommandDefinition): nat
  {
    if def.hasId then 2 else 1
  }

  /** The record before the flag loop: the positional id under the key `id`, when there is one. */
  function InitialRecord(def: CommandDefinition, parts: seq<string>): (r: Record)
    requires def.hasId ==> |parts| >= 2
    ensures r.Keys <= {"id"}
    ensures "id" in r <==> def.hasId
    ensures def.hasId ==> r["id"] == Str(parts[1])
  {
    if def.hasId then map["id" := Str(parts[1])] else map[]
  }

  /**
   * The returned object: `id` is the record's `id` entry when that is truthy,
   * and `flags` is the record without the key `id`.
   */
  function Finish(command: string, rec: Record): (p: ParsedCommand)
    ensures p.command == command
    ensures p.id.Some? <==> "id" in rec && Truthy(rec["id"])
    ensures p.id.Some? ==> p.id.value == rec["id"]
    ensures "id" !in p.flags
    ensures forall k :: k in p.flags <==> k in rec && k != "id"
    ensures forall k :: k in p.flags ==> p.flags[k] == rec[k]
  {
    ParsedCommand(command, if "id" in rec && Truthy(rec["id"]) then Some(rec["id"]) else None, rec - {"id"})
  }

  /** What `parse(input)` returns or throws, against the catalog `commands`. */
  function ParseWith(commands: Catalog, input: string, conv: Conversions): (r: Result<ParsedCommand, string>)
    ensures Tokenize(input) == [] ==> r == Failure("Invalid command format")
    ensures Tokenize(input) != [] && Lower(Tokenize(input)[0]) !in commands ==>
              r == Failure("Unknown command: " + Lower(Tokenize(input)[0]))
    ensures Tokenize(input) != [] && Lower(Tokenize(input)[0]) in commands &&
            commands[Lower(Tokenize(input)[0])].hasId && |Tokenize(input)| < 2 ==>
              r == Failure("Command " + Lower(Tokenize(input)[0]) + " requires an ID")
    ensures r.Success? ==>
              && Tokenize(input) != []
              && r.value.command == Lower(Tokenize(input)[0])
              && r.value.command in commands
              && "id" !in r.value.flags
    ensures r.Success? ==>
              var def := commands[r.value.command];
              && (forall k :: k in r.value.flags ==> Declares(def.flags, k, TypeOf(r.value.flags[k])))
              && (forall f :: f in def.flags && f.required && f.name != "id" ==> f.name in r.value.flags)
    ensures r.Success? && "id" !in Names(commands[r.value.command].flags) ==>
              r.value.id == if commands[r.value.command].hasId then Some(Str(Tokenize(input)[1])) else None
  {
    var parts := Tokenize(input);
    if parts == [] then Failure("Invalid command format")
    else
      var command := Lower(parts[0]);
      if command !in commands then Failure("Unknown command: " + command)
      else
        var def := commands[command];
        if def.hasId && |parts| < 2 then Failure("Command " + command + " requires an ID")
        else
          match ParseFlags(def, parts, FlagStart(def), InitialRecord(def, parts), conv)
          case Failure(e) => Failure(e)
          case Success(rec) =>
            match MissingRequired(def.flags, rec)
            case Some(name) => Failure("Missing required flag: " + name)
            case None => Success(Finish(command, rec))
  }

  /** The catalog after `registerCommand` of each definition in order, starting from `base`. */
  function RegisterAll(base: Catalog, defs: seq<CommandDefinition>): (r: Catalog)
    ensures base.Keys <= r.Keys
    decreases |defs|
  {
    if defs == [] then base else RegisterAll(base[Lower(defs[0].name) := defs[0]], defs[1..])
  }

  /** `diaryCommands`: the five commands of the diary catalog, in registration order. */
  const DiaryCommands: seq<CommandDefinition> :=
    [AddCommand, UpdateCommand, DeleteCommand, ReportCommand, DaylogCommand]

  const AddCommand := CommandDefinition("add", [
    Flag("desc", StringType, true, None),
    Flag("cost", NumberType, true, None),
    Flag("cat", StringType, false, None),
    Flag("date", DateType, false, None)], false)

  const UpdateCommand := CommandDefinition("update", [
    Flag("desc", StringType, false, None),
    Flag("cost", NumberType, false, None),
    Flag("cat", StringType, false, None)], true)

  const DeleteCommand := CommandDefinition("delete", [], true)

  const ReportCommand := CommandDefinition("report", [
    Flag("from", DateType, true, None),
    Flag("to", DateType, false, None),
    Flag("export", BooleanType, false, None)], false)

  const DaylogCommand := CommandDefinition("daylog", [
    Flag("stars", NumberType, true, None),
    Flag("text", StringType, true, None),
    Flag("date", DateType, false, None)], false)

  /** The flag loop of `parse`, from the flag token at `start` with the record `flags`. */
  method ParseFlagLoop(definition: CommandDefinition, parts: seq<string>, start: nat, flags: Record, conv: Conversions)
    returns (r: Result<Record, string>)
    ensures r == ParseFlags(definition, parts, start, flags, conv)
  {
    var currentIndex := start;
    var rec := flags;
    while currentIndex < |parts|
      invariant ParseFlags(definition, parts, currentIndex, rec, conv) == ParseFlags(definition, parts, start, flags, conv)
      decreases |parts| - currentIndex
    {
      var flag := parts[currentIndex];
      if !StartsWith(flag, "-") {
        return Failure("Invalid flag format at: " + flag);
      }
      var flagName := flag[1..];
      var flagDef := FindFlag(definition.flags, flagName);
      if flagDef.None? {
        return Failure("Unknown flag: " + flagName);
      }
      currentIndex := currentIndex + 1;
      if currentIndex >= |parts| {
        return Failure("Missing value for flag: " + flagName);
      }
      var value := Unquote(parts[currentIndex]);
      var fd := flagDef.value;
      match fd.flagType {
        case NumberType =>
          var num := conv.number(value);
          if num.None? {
            return Failure("Invalid number for flag " + flagName + ": " + value);
          }
          rec := rec[fd.name := Num(num.value)];
        case DateType =>
          var date := conv.date(value);
          if date.None? {
            return Failure("Invalid date for flag " + flagName + ": " + value);
          }
          rec := rec[fd.name := Date(date.value)];
        case BooleanType =>
          rec := rec[fd.name := Bool(Lower(value) == "true")];
        case StringType =>
          rec := rec[fd.name := Str(value)];
      }
      currentIndex := currentIndex + 1;
    }
    return Success(rec);
  }

  /** The loop of `parse` over the declared flags: the first required one without an entry. */
  method FirstMissing(flags: seq<Flag>, rec: Record) returns (r: Option<string>)
    ensures r == MissingRequired(flags, rec)
  {
    for k := 0 to |flags|
      invariant MissingRequired(flags, rec) == MissingRequired(flags[k..], rec)
    {
      var flagDef := flags[k];
      if flagDef.required && flagDef.name !in rec {
        return Some(flagDef.name);
      }
    }
    return None;
  }

  class CommandParser {
    var commands: Catalog

    constructor()
      ensures commands == map[]
    {
      commands := map[];
    }

    /** Stores the definition under its lower-cased name, replacing an earlier one. */
    method RegisterCommand(definition: CommandDefinition)
      modifies this
      ensures commands == old(commands)[Lower(definition.name) := definition]
      ensures forall k :: k != Lower(definition.name) && k in old(commands) ==> k in commands && commands[k] == old(commands)[k]
    {
      commands := commands[Lower(definition.name) := definition];
    }

    method Parse(input: string, conv: Conversions) returns (r: Result<ParsedCommand, string>)
      ensures r == ParseWith(commands, input, conv)
    {
      var parts := Tokenize(input);
      if |parts| == 0 {
        return Failure("Invalid command format");
      }
      var command := Lower(parts[0]);
      if command !in commands {
        return Failure("Unknown command: " + command);
      }
      var definition := commands[command];
      var currentIndex := 1;
      var flags: Record := map[];
      if definition.hasId {
        if |parts| < 2 {
          return Failure("Command " + command + " requires an ID");
        }
        flags := flags["id" := Str(parts[1])];
        currentIndex := 2;
      }
      var loop := ParseFlagLoop(definition, parts, currentIndex, flags, conv);
      if loop.Failure? {
        return Failure(loop.error);
      }
      flags := loop.value;
      var missing := FirstMissing(definition.flags, flags);
      if missing.Some? {
        return Failure("Missing required flag: " + missing.value);
      }
      r := Success(Finish(command, flags));
    }
  }
}
