/** Properties of the command parser of utils/commands/helpers/commandParser.ts. */
module ParserLemmas {
  import opened Wrappers
  import opened Text
  import opened Tokenizer
  import opened Types
  import opened Parser

  /* ---------- The catalog: lower-cased keys, last registration wins ---------- */

  /**
   * After registering `defs` in order, a key is present exactly when it was
   * present before or some definition's lower-cased name is that key.
   */
  lemma {:induction false} RegisterAllKeys(base: Catalog, defs: seq<CommandDefinition>)
    ensures forall k :: k in RegisterAll(base, defs) <==>
              k in base || exists i :: 0 <= i < |defs| && Lower(defs[i].name) == k
    decreases |defs|
  {
    if defs != [] {
      RegisterAllKeys(base[Lower(defs[0].name) := defs[0]], defs[1..]);
      forall k ensures k in RegisterAll(base, defs) <==> k in base || exists i :: 0 <= i < |defs| && Lower(defs[i].name) == k {
        if exists i :: 0 <= i < |defs[1..]| && Lower(defs[1..][i].name) == k {
          var i :| 0 <= i < |defs[1..]| && Lower(defs[1..][i].name) == k;
          assert defs[i + 1] == defs[1..][i];
        }
        if exists i :: 0 <= i < |defs| && Lower(defs[i].name) == k {
          var i :| 0 <= i < |defs| && Lower(defs[i].name) == k;
          if i > 0 { assert defs[1..][i - 1] == defs[i]; }
        }
      }
    }
  }

  /** Last registration wins: a key holds the last definition registered under it. */
  lemma {:induction false} RegisterAllLastWins(base: Catalog, defs: seq<CommandDefinition>, i: nat)
    requires i < |defs|
    requires forall j :: i < j < |defs| ==> Lower(defs[j].name) != Lower(defs[i].name)
    ensures Lower(defs[i].name) in RegisterAll(base, defs)
    ensures RegisterAll(base, defs)[Lower(defs[i].name)] == defs[i]
    decreases |defs|
  {
    var base' := base[Lower(defs[0].name) := defs[0]];
    if i == 0 {
      RegisterAllUntouched(base', defs[1..], Lower(defs[0].name));
    } else {
      assert defs[1..][i - 1] == defs[i];
      forall j | i - 1 < j < |defs[1..]| ensures Lower(defs[1..][j].name) != Lower(defs[1..][i - 1].name) {
        assert defs[1..][j] == defs[j + 1];
      }
      RegisterAllLastWins(base', defs[1..], i - 1);
    }
  }

  /** A key that no definition names keeps its earlier entry. */
  lemma {:induction false} RegisterAllUntouched(base: Catalog, defs: seq<CommandDefinition>, k: string)
    requires k in base
    requires forall i :: 0 <= i < |defs| ==> Lower(defs[i].name) != k
    ensures k in RegisterAll(base, defs) && RegisterAll(base, defs)[k] == base[k]
    decreases |defs|
  {
    if defs != [] {
      forall i | 0 <= i < |defs[1..]| ensures Lower(defs[1..][i].name) != k {
        assert defs[1..][i] == defs[i + 1];
      }
      RegisterAllUntouched(base[Lower(defs[0].name) := defs[0]], defs[1..], k);
    }
  }

  /** Registering one more definition is one more map update. */
  lemma {:induction false} RegisterAllSnoc(base: Catalog, defs: seq<CommandDefinition>, d: CommandDefinition)
    ensures RegisterAll(base, defs + [d]) == RegisterAll(base, defs)[Lower(d.name) := d]
    decreases |defs|
  {
    if defs == [] {
      assert defs + [d] == [d];
    } else {
      assert (defs + [d])[1..] == defs[1..] + [d];
      RegisterAllSnoc(base[Lower(defs[0].name) := defs[0]], defs[1..], d);
    }
  }

  /** Registering five definitions is five map updates, in order. */
  lemma RegisterFive(d: seq<CommandDefinition>)
    requires |d| == 5
    ensures RegisterAll(map[], d) ==
              map[][Lower(d[0].name) := d[0]][Lower(d[1].name) := d[1]][Lower(d[2].name) := d[2]]
                   [Lower(d[3].name) := d[3]][Lower(d[4].name) := d[4]]
  {
    var m0: Catalog := map[];
    var m1 := m0[Lower(d[0].name) := d[0]];
    var m2 := m1[Lower(d[1].name) := d[1]];
    var m3 := m2[Lower(d[2].name) := d[2]];
    var m4 := m3[Lower(d[3].name) := d[3]];
    var m5 := m4[Lower(d[4].name) := d[4]];
    RegisterAllFront(m0, d, 0);
    RegisterAllFront(m1, d, 1);
    RegisterAllFront(m2, d, 2);
    RegisterAllFront(m3, d, 3);
    RegisterAllFront(m4, d, 4);
    assert d[5..] == [];
  }

  /** Registering from position `i` on is one map update, then registering from `i + 1`. */
  lemma RegisterAllFront(base: Catalog, defs: seq<CommandDefinition>, i: nat)
    requires i < |defs|
    ensures RegisterAll(base, defs[i..]) == RegisterAll(base[Lower(defs[i].name) := defs[i]], defs[i + 1..])
  {
    assert defs[i..][1..] == defs[i + 1..];
  }

  lemma AddIsLowercase() ensures Lower("add") == "add" { }
  lemma UpdateIsLowercase() ensures Lower("update") == "update" { }
  lemma DeleteIsLowercase() ensures Lower("delete") == "delete" { }
  lemma ReportIsLowercase() ensures Lower("report") == "report" { }
  lemma DaylogIsLowercase() ensures Lower("daylog") == "daylog" { }

  /** The catalog built from `diaryCommands` holds exactly the five diary commands. */
  lemma DiaryCatalog()
    ensures RegisterAll(map[], DiaryCommands) ==
              map["add" := AddCommand, "update" := UpdateCommand, "delete" := DeleteCommand,
                  "report" := ReportCommand, "daylog" := DaylogCommand]
  {
    RegisterFive(DiaryCommands);
    AddIsLowercase();
    UpdateIsLowercase();
    DeleteIsLowercase();
    ReportIsLowercase();
    DaylogIsLowercase();
  }

  /* ---------- Where flag values are stored ---------- */

  /** Token `i` is a flag token of the loop that starts at `start`. */
  predicate FlagToken(start: nat, i: nat, n: nat)
  {
    start <= i < n && (i - start) % 2 == 0
  }

  lemma FlagTokenShift(start: nat, i: nat, n: nat)
    ensures FlagToken(start, i, n) <==> i == start < n || FlagToken(start + 2, i, n)
  {
  }

  /**
   * Token `j` is a flag token of the loop that starts at `start` and names
   * (by name or alias) the flag whose canonical name is `k`.
   */
  predicate SuppliesAt(def: CommandDefinition, parts: seq<string>, start: nat, j: nat, k: string)
  {
    && start <= j < |parts|
    && (j - start) % 2 == 0
    && StartsWith(parts[j], "-")
    && FindFlag(def.flags, parts[j][1..]).Some?
    && FindFlag(def.flags, parts[j][1..]).value.name == k
  }

  /** Token `j` supplies `k` and no later flag token does. */
  predicate LastSupply(def: CommandDefinition, parts: seq<string>, start: nat, j: nat, k: string)
  {
    SuppliesAt(def, parts, start, j, k) && forall j' :: j < j' < |parts| ==> !SuppliesAt(def, parts, start, j', k)
  }

  /** The value that the flag token `j` stores, converted as its flag's type says. */
  function SuppliedValue(def: CommandDefinition, parts: seq<string>, j: nat, conv: Conversions): Result<FlagValue, string>
    requires j + 1 < |parts| && |parts[j]| > 0 && FindFlag(def.flags, parts[j][1..]).Some?
  {
    Cast(FindFlag(def.flags, parts[j][1..]).value, parts[j][1..], Unquote(parts[j + 1]), conv)
  }

  /**
   * The flag tokens of the loop at `start` are its first token and those of
   * the loop at `next`, two tokens on.
   */
  lemma SuppliesShift(def: CommandDefinition, parts: seq<string>, start: nat, next: nat, conv: Conversions)
    requires next == start + 2
    requires start < |parts| && ReadFlag(def, parts, start, conv).Success?
    ensures SuppliesAt(def, parts, start, start, ReadFlag(def, parts, start, conv).value.0)
    ensures forall j: nat, k :: SuppliesAt(def, parts, start, j, k) <==>
              (j == start && k == ReadFlag(def, parts, start, conv).value.0) || SuppliesAt(def, parts, next, j, k)
  {
    forall j: nat, k ensures SuppliesAt(def, parts, start, j, k) <==>
                              (j == start && k == ReadFlag(def, parts, start, conv).value.0) || SuppliesAt(def, parts, next, j, k) {
      FlagTokenShift(start, j, |parts|);
    }
  }

  /**
   * A successful flag loop stores a value under `k` exactly when `k` was in
   * the record before or some flag token (by name or alias) supplies it.
   */
  lemma {:induction false} ParseFlagsKeys(def: CommandDefinition, parts: seq<string>, start: nat, rec: Record,
                                          conv: Conversions, out: Record)
    requires ParseFlags(def, parts, start, rec, conv) == Success(out)
    ensures forall k :: k in out <==> k in rec || exists j :: SuppliesAt(def, parts, start, j, k)
    decreases |parts| - start
  {
    if start >= |parts| {
      assert forall k, j :: !SuppliesAt(def, parts, start, j, k);
    } else {
      var entry := ReadFlag(def, parts, start, conv).value;
      var rec' := rec[entry.0 := entry.1];
      var next := start + 2;
      assert ParseFlags(def, parts, next, rec', conv) == Success(out);
      ParseFlagsKeys(def, parts, next, rec', conv, out);
      SuppliesShift(def, parts, start, next, conv);
    }
  }

  /** A key that no flag token supplies keeps its earlier value. */
  lemma {:induction false} ParseFlagsKeepsUnsupplied(def: CommandDefinition, parts: seq<string>, start: nat, rec: Record,
                                                     conv: Conversions, out: Record, k: string)
    requires ParseFlags(def, parts, start, rec, conv) == Success(out)
    requires k in rec && forall j :: !SuppliesAt(def, parts, start, j, k)
    ensures k in out && out[k] == rec[k]
    decreases |parts| - start
  {
    if start < |parts| {
      var entry := ReadFlag(def, parts, start, conv).value;
      var rec' := rec[entry.0 := entry.1];
      var next := start + 2;
      assert ParseFlags(def, parts, next, rec', conv) == Success(out);
      SuppliesShift(def, parts, start, next, conv);
      assert k != entry.0;
      ParseFlagsKeepsUnsupplied(def, parts, next, rec', conv, out, k);
    }
  }

  /** A supplied key holds the value of its last flag token. */
  lemma {:induction false} ParseFlagsKeepsLastValue(def: CommandDefinition, parts: seq<string>, start: nat, rec: Record,
                                                    conv: Conversions, out: Record, j: nat, k: string)
    requires ParseFlags(def, parts, start, rec, conv) == Success(out)
    requires LastSupply(def, parts, start, j, k)
    ensures k in out && j + 1 < |parts| && SuppliedValue(def, parts, j, conv) == Success(out[k])
    decreases |parts| - start
  {
    var entry := ReadFlag(def, parts, start, conv).value;
    var rec' := rec[entry.0 := entry.1];
    var next := start + 2;
    assert ParseFlags(def, parts, next, rec', conv) == Success(out);
    SuppliesShift(def, parts, start, next, conv);
    if j == start {
      assert k == entry.0;
      ParseFlagsKeepsUnsupplied(def, parts, next, rec', conv, out, k);
    } else {
      assert LastSupply(def, parts, next, j, k);
      ParseFlagsKeepsLastValue(def, parts, next, rec', conv, out, j, k);
    }
  }

  /** What a successful parse consists of: a known command, a successful flag loop, and its record finished. */
  lemma ParseWithSucceeded(commands: Catalog, input: string, conv: Conversions)
    requires ParseWith(commands, input, conv).Success?
    ensures var parts := Tokenize(input);
            && parts != [] && Lower(parts[0]) in commands
            && var def := commands[Lower(parts[0])];
            && (def.hasId ==> |parts| >= 2)
            && ParseFlags(def, parts, FlagStart(def), InitialRecord(def, parts), conv).Success?
            && ParseWith(commands, input, conv).value ==
                 Finish(Lower(parts[0]), ParseFlags(def, parts, FlagStart(def), InitialRecord(def, parts), conv).value)
  {
  }

  /**
   * On a successful parse the returned flags hold exactly the declared flags
   * some flag token supplied (other than `id`), each with the value of its
   * last flag token: a repeated flag keeps its last value and an alias
   * stores under the canonical name.
   */
  lemma ParsedFlagsAreLastSupplied(commands: Catalog, input: string, conv: Conversions)
    requires ParseWith(commands, input, conv).Success?
    ensures var p := ParseWith(commands, input, conv).value;
            var parts := Tokenize(input);
            var def := commands[p.command];
            && (forall k :: k in p.flags <==> k != "id" && exists j :: SuppliesAt(def, parts, FlagStart(def), j, k))
            && (forall k, j: nat :: k != "id" && LastSupply(def, parts, FlagStart(def), j, k) ==>
                  j + 1 < |parts| && SuppliedValue(def, parts, j, conv) == Success(p.flags[k]))
  {
    ParseWithSucceeded(commands, input, conv);
    var parts := Tokenize(input);
    var def := commands[Lower(parts[0])];
    var init := InitialRecord(def, parts);
    var rec := ParseFlags(def, parts, FlagStart(def), init, conv).value;
    LoopFlagsAreLastSupplied(def, parts, FlagStart(def), init, conv, rec);
  }

  /** The flag loop from a record holding at most `id`: what remains without `id` is the last supplied values. */
  lemma LoopFlagsAreLastSupplied(def: CommandDefinition, parts: seq<string>, start: nat, init: Record,
                                 conv: Conversions, rec: Record)
    requires init.Keys <= {"id"}
    requires ParseFlags(def, parts, start, init, conv) == Success(rec)
    ensures forall k :: k in rec - {"id"} <==> k != "id" && exists j :: SuppliesAt(def, parts, start, j, k)
    ensures forall k, j: nat :: k != "id" && LastSupply(def, parts, start, j, k) ==>
              j + 1 < |parts| && k in rec && SuppliedValue(def, parts, j, conv) == Success(rec[k])
  {
    ParseFlagsKeys(def, parts, start, init, conv, rec);
    forall k, j: nat | k != "id" && LastSupply(def, parts, start, j, k)
      ensures j + 1 < |parts| && k in rec && SuppliedValue(def, parts, j, conv) == Success(rec[k])
    {
      ParseFlagsKeepsLastValue(def, parts, start, init, conv, rec, j, k);
    }
  }

  /* ---------- Which error is thrown ---------- */

  /** The flag loop succeeds exactly when every flag token of it is read successfully. */
  lemma ParseFlagsSucceedsIff(def: CommandDefinition, parts: seq<string>, start: nat, rec: Record, conv: Conversions)
    ensures ParseFlags(def, parts, start, rec, conv).Success? <==>
              forall i: nat :: FlagToken(start, i, |parts|) ==> ReadFlag(def, parts, i, conv).Success?
  {
    if ParseFlags(def, parts, start, rec, conv).Success? {
      ParseFlagsSuccessReads(def, parts, start, rec, conv);
    } else if forall i: nat :: FlagToken(start, i, |parts|) ==> ReadFlag(def, parts, i, conv).Success? {
      ParseFlagsReadsSucceed(def, parts, start, rec, conv);
    }
  }

  /** A successful flag loop read every one of its flag tokens successfully. */
  lemma {:induction false} ParseFlagsSuccessReads(def: CommandDefinition, parts: seq<string>, start: nat, rec: Record,
                                                  conv: Conversions)
    requires ParseFlags(def, parts, start, rec, conv).Success?
    ensures forall i: nat :: FlagToken(start, i, |parts|) ==> ReadFlag(def, parts, i, conv).Success?
    decreases |parts| - start
  {
    if start < |parts| {
      var entry := ReadFlag(def, parts, start, conv).value;
      ParseFlagsSuccessReads(def, parts, start + 2, rec[entry.0 := entry.1], conv);
      forall i: nat | FlagToken(start, i, |parts|) ensures ReadFlag(def, parts, i, conv).Success? {
        FlagTokenShift(start, i, |parts|);
      }
    }
  }

  /** A flag loop whose flag tokens all read successfully succeeds. */
  lemma {:induction false} ParseFlagsReadsSucceed(def: CommandDefinition, parts: seq<string>, start: nat, rec: Record,
                                                  conv: Conversions)
    requires forall i: nat :: FlagToken(start, i, |parts|) ==> ReadFlag(def, parts, i, conv).Success?
    ensures ParseFlags(def, parts, start, rec, conv).Success?
    decreases |parts| - start
  {
    if start < |parts| {
      assert FlagToken(start, start, |parts|);
      var entry := ReadFlag(def, parts, start, conv).value;
      forall i: nat | FlagToken(start + 2, i, |parts|) ensures ReadFlag(def, parts, i, conv).Success? {
        FlagTokenShift(start, i, |parts|);
      }
      ParseFlagsReadsSucceed(def, parts, start + 2, rec[entry.0 := entry.1], conv);
    }
  }

  /** A failing flag loop throws the error of its first flag token that cannot be read. */
  lemma ParseFlagsFailsAtFirstBadFlag(def: CommandDefinition, parts: seq<string>, start: nat, rec: Record,
                                      conv: Conversions, j: nat)
    requires FlagToken(start, j, |parts|)
    requires forall i: nat :: FlagToken(start, i, j) ==> ReadFlag(def, parts, i, conv).Success?
    requires ReadFlag(def, parts, j, conv).Failure?
    ensures ParseFlags(def, parts, start, rec, conv) == Failure(ReadFlag(def, parts, j, conv).error)
  {
    FailsAtFirst(def, parts, start, rec, conv, j, (j - start) / 2);
  }

  lemma {:induction false} FailsAtFirst(def: CommandDefinition, parts: seq<string>, start: nat, rec: Record,
                                        conv: Conversions, j: nat, steps: nat)
    requires j == start + 2 * steps < |parts|
    requires forall i: nat :: FlagToken(start, i, j) ==> ReadFlag(def, parts, i, conv).Success?
    requires ReadFlag(def, parts, j, conv).Failure?
    ensures ParseFlags(def, parts, start, rec, conv) == Failure(ReadFlag(def, parts, j, conv).error)
    decreases steps
  {
    if steps > 0 {
      ReadsBeforeShift(def, parts, start, j, conv);
      var next := ParseFlagsStep(def, parts, start, rec, conv);
      FailsAtFirst(def, parts, start + 2, next, conv, j, steps - 1);
    }
  }

  /** The flag tokens before `j` that read successfully, seen from the next flag token on. */
  lemma ReadsBeforeShift(def: CommandDefinition, parts: seq<string>, start: nat, j: nat, conv: Conversions)
    requires start < j <= |parts|
    requires forall i: nat :: FlagToken(start, i, j) ==> ReadFlag(def, parts, i, conv).Success?
    ensures ReadFlag(def, parts, start, conv).Success?
    ensures forall i: nat :: FlagToken(start + 2, i, j) ==> ReadFlag(def, parts, i, conv).Success?
  {
    assert FlagToken(start, start, j);
    forall i: nat | FlagToken(start + 2, i, j) ensures ReadFlag(def, parts, i, conv).Success? {
      FlagTokenShift(start, i, j);
    }
  }

  /** One round of the flag loop: a flag token that reads stores its entry and the loop goes on two tokens later. */
  lemma ParseFlagsStep(def: CommandDefinition, parts: seq<string>, start: nat, rec: Record, conv: Conversions)
    returns (next: Record)
    requires start < |parts| && ReadFlag(def, parts, start, conv).Success?
    ensures next == rec[ReadFlag(def, parts, start, conv).value.0 := ReadFlag(def, parts, start, conv).value.1]
    ensures ParseFlags(def, parts, start, rec, conv) == ParseFlags(def, parts, start + 2, next, conv)
  {
    var entry := ReadFlag(def, parts, start, conv).value;
    next := rec[entry.0 := entry.1];
  }

  /* ---------- When `parse` fails, and with which error ---------- */

  /** The tokens name a known command and carry the positional id it requires. */
  predicate Dispatchable(commands: Catalog, parts: seq<string>)
  {
    parts != [] && Lower(parts[0]) in commands && (commands[Lower(parts[0])].hasId ==> |parts| >= 2)
  }

  /**
   * The flag loop leaves an entry under `k`: some flag token supplies it, or
   * it is `id` and the command takes the positional id.
   */
  ghost predicate Supplied(def: CommandDefinition, parts: seq<string>, k: string)
  {
    (exists j :: SuppliesAt(def, parts, FlagStart(def), j, k)) || (k == "id" && def.hasId)
  }

  /** When every flag token reads, the loop's record has an entry exactly for the supplied names. */
  lemma LoopRecordKeys(def: CommandDefinition, parts: seq<string>, conv: Conversions) returns (rec: Record)
    requires def.hasId ==> |parts| >= 2
    requires forall j: nat :: FlagToken(FlagStart(def), j, |parts|) ==> ReadFlag(def, parts, j, conv).Success?
    ensures ParseFlags(def, parts, FlagStart(def), InitialRecord(def, parts), conv) == Success(rec)
    ensures forall k :: k in rec <==> Supplied(def, parts, k)
  {
    var init := InitialRecord(def, parts);
    ParseFlagsReadsSucceed(def, parts, FlagStart(def), init, conv);
    rec := ParseFlags(def, parts, FlagStart(def), init, conv).value;
    ParseFlagsKeys(def, parts, FlagStart(def), init, conv, rec);
  }

  /** The required-flag check reports the first required flag, in declaration order, with no entry. */
  lemma {:induction false} MissingRequiredIsFirst(flags: seq<Flag>, rec: Record, i: nat)
    requires i < |flags| && flags[i].required && flags[i].name !in rec
    requires forall j :: 0 <= j < i && flags[j].required ==> flags[j].name in rec
    ensures MissingRequired(flags, rec) == Some(flags[i].name)
  {
    if i > 0 && !(flags[0].required && flags[0].name !in rec) {
      forall j | 0 <= j < i - 1 && flags[1..][j].required ensures flags[1..][j].name in rec {
        assert flags[1..][j] == flags[j + 1];
      }
      MissingRequiredIsFirst(flags[1..], rec, i - 1);
    }
  }

  /**
   * `parse` of a known command throws the error of the first flag token that
   * cannot be read: its format, an unknown name, a missing value or a failed
   * conversion.
   */
  lemma ParseFailsAtFirstBadFlag(commands: Catalog, input: string, conv: Conversions, j: nat)
    requires Dispatchable(commands, Tokenize(input))
    requires var parts := Tokenize(input);
             var def := commands[Lower(parts[0])];
             && FlagToken(FlagStart(def), j, |parts|)
             && (forall i: nat :: FlagToken(FlagStart(def), i, j) ==> ReadFlag(def, parts, i, conv).Success?)
             && ReadFlag(def, parts, j, conv).Failure?
    ensures var parts := Tokenize(input);
            ParseWith(commands, input, conv) == Failure(ReadFlag(commands[Lower(parts[0])], parts, j, conv).error)
  {
    var parts := Tokenize(input);
    var def := commands[Lower(parts[0])];
    ParseFlagsFailsAtFirstBadFlag(def, parts, FlagStart(def), InitialRecord(def, parts), conv, j);
  }

  /**
   * When every flag token reads, `parse` throws "Missing required flag" for
   * the first required flag, in declaration order, that is not supplied.
   */
  lemma ParseMissingRequired(commands: Catalog, input: string, conv: Conversions, i: nat)
    requires Dispatchable(commands, Tokenize(input))
    requires var parts := Tokenize(input);
             var def := commands[Lower(parts[0])];
             && (forall j: nat :: FlagToken(FlagStart(def), j, |parts|) ==> ReadFlag(def, parts, j, conv).Success?)
             && i < |def.flags| && def.flags[i].required && !Supplied(def, parts, def.flags[i].name)
             && (forall j :: 0 <= j < i && def.flags[j].required ==> Supplied(def, parts, def.flags[j].name))
    ensures ParseWith(commands, input, conv) ==
              Failure("Missing required flag: " + commands[Lower(Tokenize(input)[0])].flags[i].name)
  {
    var parts := Tokenize(input);
    var def := commands[Lower(parts[0])];
    var rec := LoopRecordKeys(def, parts, conv);
    MissingRequiredIsFirst(def.flags, rec, i);
  }

  /**
   * `parse` returns a command exactly when the command is known and has its
   * id, every flag token reads, and every required flag is supplied.
   */
  lemma ParseSucceedsIff(commands: Catalog, input: string, conv: Conversions)
    ensures ParseWith(commands, input, conv).Success? <==>
              && Dispatchable(commands, Tokenize(input))
              && var parts := Tokenize(input);
                 var def := commands[Lower(parts[0])];
                 && (forall j: nat :: FlagToken(FlagStart(def), j, |parts|) ==> ReadFlag(def, parts, j, conv).Success?)
                 && (forall f :: f in def.flags && f.required ==> Supplied(def, parts, f.name))
  {
    var parts := Tokenize(input);
    if Dispatchable(commands, parts) {
      var def := commands[Lower(parts[0])];
      ParseFlagsSucceedsIff(def, parts, FlagStart(def), InitialRecord(def, parts), conv);
      if forall j: nat :: FlagToken(FlagStart(def), j, |parts|) ==> ReadFlag(def, parts, j, conv).Success? {
        var rec := LoopRecordKeys(def, parts, conv);
        ParseWithAfterLoop(commands, input, conv, rec);
      }
    }
  }

  /** Once the flag loop of a known command has succeeded, `parse` returns exactly when no required flag is missing. */
  lemma ParseWithAfterLoop(commands: Catalog, input: string, conv: Conversions, rec: Record)
    requires Dispatchable(commands, Tokenize(input))
    requires var parts := Tokenize(input);
             var def := commands[Lower(parts[0])];
             ParseFlags(def, parts, FlagStart(def), InitialRecord(def, parts), conv) == Success(rec)
    ensures ParseWith(commands, input, conv).Success? <==>
              forall f :: f in commands[Lower(Tokenize(input)[0])].flags && f.required ==> f.name in rec
  {
  }

  /* ---------- Quoted values ---------- */

  /**
   * A phrase written in quotes, white space and all, is one token and comes
   * back verbatim as a flag value, provided it holds no `"` and no line break.
   */
  lemma QuotedValueRecovered(phrase: string)
    requires forall i :: 0 <= i < |phrase| ==> phrase[i] != '"' && !IsLineTerminator(phrase[i])
    ensures |Quote(phrase)| > 0 && Glued(Quote(phrase))
    ensures Unquote(Quote(phrase)) == phrase
  {
    QuotedIsGlued(phrase);
    var q := Quote(phrase);
    assert q[1..|q| - 1] == phrase;
  }

  /** A quoted value spanning a line break is one token, but keeps its quotes. */
  lemma QuotedLineBreakKeepsQuotes()
    ensures Glued(Quote("a\nb")) && Unquote(Quote("a\nb")) == Quote("a\nb")
  {
    QuotedIsGlued("a\nb");
    assert Quote("a\nb")[2] == '\n';
  }

  /* ---------- A double dash ---------- */

  predicate NoLeadingDash(s: string)
  {
    s == [] || s[0] != '-'
  }

  /**
   * Only one `-` is stripped: when no flag name or alias starts with `-`, a
   * token `--name` in a flag position fails as the unknown flag `-name`.
   */
  lemma DoubleDashIsUnknown(def: CommandDefinition, parts: seq<string>, i: nat, conv: Conversions)
    requires i < |parts| && StartsWith(parts[i], "--")
    requires forall f :: f in def.flags ==> NoLeadingDash(f.name) && (f.alias.Some? ==> NoLeadingDash(f.alias.value))
    ensures ReadFlag(def, parts, i, conv) == Failure("Unknown flag: " + parts[i][1..])
    ensures parts[i][1..][0] == '-'
  {
    var name := parts[i][1..];
    assert parts[i][..2][1] == '-';
    assert StartsWith(parts[i], "-") by { assert parts[i][..1] == parts[i][..2][..1]; }
    forall f | f in def.flags ensures !Matches(f, name) {
    }
  }

  lemma AddFlagsNoDash() ensures forall f :: f in AddCommand.flags ==> NoLeadingDash(f.name) && f.alias.None? { }
  lemma UpdateFlagsNoDash() ensures forall f :: f in UpdateCommand.flags ==> NoLeadingDash(f.name) && f.alias.None? { }
  lemma ReportFlagsNoDash() ensures forall f :: f in ReportCommand.flags ==> NoLeadingDash(f.name) && f.alias.None? { }
  lemma DaylogFlagsNoDash() ensures forall f :: f in DaylogCommand.flags ==> NoLeadingDash(f.name) && f.alias.None? { }

  /** No flag of the diary catalog has an alias or a name that starts with `-`. */
  lemma DiaryFlagsHaveNoDash(d: CommandDefinition)
    requires d in DiaryCommands
    ensures forall f :: f in d.flags ==> NoLeadingDash(f.name) && f.alias.None?
  {
    AddFlagsNoDash();
    UpdateFlagsNoDash();
    ReportFlagsNoDash();
    DaylogFlagsNoDash();
  }
}
