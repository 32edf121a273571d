# diarywhisper command core, in Dafny

This project models the command core of diarywhisper, a diary and expense tracker that is driven by text
commands sent from Apple Shortcuts. It also proves properties of that model. The model has five parts:

- **The command language** (`utils/commands/helpers/commandParser.ts`):
  - the tokenizer, the regular expression `(?:[^\s"]+|"[^"]*")+`;
  - the catalog of command definitions, where keys are lower-cased and the last registration wins;
  - the static `diaryCommands` catalog;
  - `parse`, which covers the positional id, flags found by name or alias, typed values, repeated flags, required flags and the nine exact error messages.

  `Parser.ParseWith` states what `parse` returns or throws. The class `Parser.CommandParser` holds the mutable catalog. Its `Parse` method runs the source's `while` loop and `for` loop, and is proved equal to `ParseWith`.
- **The handler registry** (`utils/registry.ts`). This is a class with a handler map and an owned parser. The registry stores names lower-cased and a later registration overwrites an earlier one. Every diary definition is registered into the parser.
- **The dispatch boundary** (`utils/handler.ts`):
  - `validateRequest`;
  - `processCommand`. An unknown command is reported in the caller's own spelling. A returned response is passed through. A throw is caught and turned into a failure, except that the exact command `expense` lets it escape.
- **The report summary** (`utils/commands/report.ts`):
  - the total;
  - the per-category totals and counts, grouped by a loop in first-seen order, then stably sorted by total in descending order;
  - the attachment list of `sendReport`;
  - the environment checks of the constructor.
- **The older classifier** `parse_command` (`api/index.py`). It lower-cases and strips the message, then matches `^(add|spent)\s+(\d+\.?\d*)\s+(.+)$`, then compares the message with `balance` and `last`, and otherwise raises HTTP 400. The regular expression is computed by a greedy left-to-right scan. It is proved sound against a declarative description of the pattern's language, and complete for every stripped message.

Every outcome that the source throws is a `Result` failure carrying the exact message. The following are parameters of the model:

- the host's `Number(value)` and `new Date(value)`: the `Parser.Conversions` datatype of partial functions;
- the handlers: abstract functions of their parameters, returning `Returned(response)` or `Threw(message)`;
- the configured API key and the two environment variables of the report;
- the list of expenses that the database query returns;
- the base64 text of the serialised report.

## Model

| member | source | states |
|---|---|---|
| Text.Lower | utils/commands/helpers/commandParser.ts:24 | `toLowerCase()` keeps the length and lower-cases each character (ASCII letters) |
| Text.LowerIdempotent | utils/registry.ts:29-35 | lower-casing a lower-cased name changes nothing, so stored keys are found again |
| Tokenizer.MatchLength | utils/commands/helpers/commandParser.ts:19 | the greedy match at a position never runs past the input; its shape is stated by `MatchIsGlued` and `MatchOfGlued` |
| Tokenizer.QuoteIndex | utils/commands/helpers/commandParser.ts:19 | the index returned is the first `"`; none means the text holds no `"` |
| Tokenizer.Tokenize | utils/commands/helpers/commandParser.ts:19-20 | every token is non-empty |
| Tokenizer.TokensAreGlued | utils/commands/helpers/commandParser.ts:19 | every token consists only of word characters and closed `"..."` spans |
| Tokenizer.MatchIsGlued | utils/commands/helpers/commandParser.ts:19 | each greedy match has that shape |
| Tokenizer.MatchOfGlued | utils/commands/helpers/commandParser.ts:19 | a glued token followed by white space, or by nothing, is matched exactly |
| Tokenizer.TokenizeJoin | utils/commands/helpers/commandParser.ts:19 | glued words joined by single spaces tokenize back to the same words |
| Tokenizer.NoTokensIff | utils/commands/helpers/commandParser.ts:19-22 | there are no tokens exactly when the input has no word character and at most one `"` |
| Tokenizer.QuotedIsGlued | utils/commands/helpers/commandParser.ts:19 | a quoted phrase without `"` is one token, with its inner white space |
| Parser.FindFlag | utils/commands/helpers/commandParser.ts:50-52 | the result is the first declared flag whose name or alias equals the text; none means no flag matches |
| Parser.Unquote | utils/commands/helpers/commandParser.ts:63 | the value changes exactly when it is `"..."` with no line terminator inside; it then loses exactly the two quotes |
| Parser.Cast | utils/commands/helpers/commandParser.ts:65-89 | numbers and dates fail with their exact messages exactly when the conversion fails; a boolean is `Lower(value) == "true"` and never fails; a string passes unchanged; the value's type is the declared type |
| Parser.ReadFlag | utils/commands/helpers/commandParser.ts:44-89 | one flag token gives "Invalid flag format at", "Unknown flag" (text after one `-`) or "Missing value for flag" in that order; on success it gives the canonical name and the cast of the unquoted next token |
| Parser.ParseFlags | utils/commands/helpers/commandParser.ts:43-92 | the flag loop removes no key, and every key it adds is a declared name holding a value of the declared type |
| Parser.MissingRequired | utils/commands/helpers/commandParser.ts:94-98 | none exactly when every required flag is present; otherwise the first required flag, in declaration order, that is absent |
| Parser.Finish | utils/commands/helpers/commandParser.ts:100-106 | the command is kept; the id is the record's `id` exactly when that is truthy; the flags are the record's other entries, unchanged |
| Parser.InitialRecord | utils/commands/helpers/commandParser.ts:31-41 | the record before the loop has only `id`, holding token 1 exactly when the command takes an id |
| Parser.ParseWith | utils/commands/helpers/commandParser.ts:19-106 | the empty-input, unknown-command and missing-id errors; on success the command is the lower-cased first token and is registered, every returned flag is declared with its declared type, every required flag is present, and the id is token 1 exactly when `hasId` holds; the remaining failures are stated by `ParseFailsAtFirstBadFlag`, `ParseMissingRequired` and `ParseSucceedsIff` |
| Parser.ParseFlagLoop | utils/commands/helpers/commandParser.ts:43-92 | the `while` loop over `currentIndex` computes `ParseFlags` |
| Parser.FirstMissing | utils/commands/helpers/commandParser.ts:94-98 | the `for` loop over the declared flags computes `MissingRequired` |
| Parser.CommandParser.constructor | utils/commands/helpers/commandParser.ts:6-8 | the catalog starts empty |
| Parser.CommandParser.RegisterCommand | utils/commands/helpers/commandParser.ts:10-12 | the definition is stored under its lower-cased name, replacing an earlier one, and every other entry is unchanged |
| Parser.CommandParser.Parse | utils/commands/helpers/commandParser.ts:14-107 | `parse` returns or throws what `ParseWith` states, against the current catalog |
| Parser.RegisterAll | utils/commands/helpers/commandParser.ts:10-12 | registering a list keeps every earlier key; which keys it adds and what they hold is stated by `RegisterAllKeys` and `RegisterAllLastWins` |
| ParserLemmas.RegisterAllKeys | utils/commands/helpers/commandParser.ts:10-12 | after registering a list, a key is present exactly when it was before or some definition's lower-cased name is that key |
| ParserLemmas.RegisterAllLastWins | utils/commands/helpers/commandParser.ts:10-12 | a key holds the last definition registered under it |
| ParserLemmas.RegisterAllUntouched | utils/commands/helpers/commandParser.ts:10-12 | a key that no definition names keeps its entry |
| ParserLemmas.RegisterAllSnoc | utils/commands/helpers/commandParser.ts:10-12 | registering one more definition is one more map update |
| ParserLemmas.DiaryCatalog | utils/commands/helpers/commandParser.ts:110-150 | registering `diaryCommands` gives exactly `add`, `update`, `delete`, `report` and `daylog` with their definitions |
| ParserLemmas.DiaryFlagsHaveNoDash | utils/commands/helpers/commandParser.ts:110-150 | no diary flag has an alias or a name that starts with `-` |
| ParserLemmas.ParseWithSucceeded | utils/commands/helpers/commandParser.ts:19-106 | a successful parse is a known command, a successful flag loop, and its record finished |
| ParserLemmas.ParseFlagsKeys | utils/commands/helpers/commandParser.ts:43-92 | after the loop a key is present exactly when it was before or some flag token supplies it by name or alias |
| ParserLemmas.ParseFlagsKeepsUnsupplied | utils/commands/helpers/commandParser.ts:43-92 | a key that no flag token supplies keeps its earlier value |
| ParserLemmas.ParseFlagsKeepsLastValue | utils/commands/helpers/commandParser.ts:50-87 | a supplied key holds the cast value of its last flag token |
| ParserLemmas.ParsedFlagsAreLastSupplied | utils/commands/helpers/commandParser.ts:43-106 | the returned flags are exactly the supplied declared names other than `id`; each is stored under the canonical name and holds its last value |
| ParserLemmas.ParseFlagsSucceedsIff | utils/commands/helpers/commandParser.ts:43-92 | the flag loop succeeds exactly when every flag token is read successfully |
| ParserLemmas.ParseFlagsFailsAtFirstBadFlag | utils/commands/helpers/commandParser.ts:43-92 | a failing loop throws the error of its first flag token that cannot be read |
| ParserLemmas.QuotedValueRecovered | utils/commands/helpers/commandParser.ts:63 | a quoted phrase without `"` or line break is one token and comes back verbatim as a value |
| ParserLemmas.QuotedLineBreakKeepsQuotes | utils/commands/helpers/commandParser.ts:63 | a quoted value spanning a line break keeps its quotes |
| ParserLemmas.DoubleDashIsUnknown | utils/commands/helpers/commandParser.ts:49-56 | only one `-` is stripped, so `--name` fails as the unknown flag `-name` |
| ParserLemmas.LoopRecordKeys | utils/commands/helpers/commandParser.ts:31-92 | when every flag token reads, the loop's record has an entry exactly for the supplied names and, when the command takes one, `id` |
| ParserLemmas.MissingRequiredIsFirst | utils/commands/helpers/commandParser.ts:94-98 | the check reports the first required flag, in declaration order, that has no entry |
| ParserLemmas.ParseFailsAtFirstBadFlag | utils/commands/helpers/commandParser.ts:14-92 | for a known command with its id, `parse` throws the error of the first flag token that cannot be read |
| ParserLemmas.ParseMissingRequired | utils/commands/helpers/commandParser.ts:14-98 | when every flag token reads, `parse` throws "Missing required flag" with the first required flag that is not supplied |
| ParserLemmas.ParseSucceedsIff | utils/commands/helpers/commandParser.ts:14-106 | `parse` returns exactly when the command is known and has its id, every flag token reads, and every required flag is supplied |
| Registry.DefaultNamesAreLower | utils/registry.ts:21-22 | the default names `ping` and `diary` are stored lower-cased |
| Registry.CommandRegistry.constructor | utils/registry.ts:14-18 | the handlers are exactly `ping` and `diary`, the parser is new, and the registry invariant holds |
| Registry.CommandRegistry.RegisterDefaultCommands | utils/registry.ts:20-27 | `ping` and then `diary` are stored over the earlier map, and the parser's catalog becomes the diary definitions registered in order over the earlier one |
| Registry.CommandRegistry.RegisterDefinitions | utils/registry.ts:24-26 | the `forEach` leaves the parser's catalog equal to `RegisterAll` of the definitions in order |
| Registry.CommandRegistry.Register | utils/registry.ts:29-31 | every spelling with the same lower-casing now finds the handler; every other name finds what it found before; the invariant is kept |
| Registry.CommandRegistry.GetCommand | utils/registry.ts:33-35 | a handler is found exactly when the lower-cased name is stored, and it is the stored one |
| Registry.CommandRegistry.GetParser | utils/registry.ts:37-39 | the owned parser is returned; under the registry invariant it holds exactly the five diary commands |
| Registry.LookupIgnoresCase | utils/registry.ts:33-35 | two names with the same lower-casing find the same handler |
| Registry.LookupFindsStoredNames | utils/registry.ts:29-35 | with the registry invariant, a name is found exactly when some stored name has the same lower-casing |
| Handler.UnknownCommand | utils/handler.ts:37-43 | a failure response with message "Unknown command: " and the name as given, and no data or action |
| Handler.ShortcutsHandler.constructor | utils/handler.ts:7-9 | the handler owns a new registry holding exactly the `ping` and `diary` handlers, with the registry invariant |
| Handler.ShortcutsHandler.ValidateRequest | utils/handler.ts:11-19 | valid exactly when the request's key equals the configured key; an unset key is never valid |
| Handler.ShortcutsHandler.ProcessCommand | utils/handler.ts:21-57 | unknown command gives the failure with the caller's spelling; a returned response is passed through; a thrown `Error` gives its message and any other throw the generic message; only the exact `expense` lets the throw escape |
| Handler.ExpenseEscapeIsCaseSensitive | utils/handler.ts:25-35 | any spelling other than the exact `expense`, even one that finds the same handler, has the throw caught |
| Handler.DispatchIgnoresCase | utils/handler.ts:37-56 | two spellings with the same lower-casing, neither of them `expense`, dispatch alike |
| Handler.CaughtThrowFails | utils/handler.ts:45-56 | outside `expense` a throw becomes a failure response and a returned response keeps its own `success` |
| ReportLemmas.SumCostsAppend | utils/commands/report.ts:54 | the sum of costs over two lists one after the other is the sum of the two sums |
| Report.Summarize | utils/commands/report.ts:66-69 | one entry per name with that category's total and count |
| Report.GroupByCategory | utils/commands/report.ts:57-64 | the `forEach` fills the map with exactly the first-seen names, each mapped to its category's total and count |
| Report.NotSeenIsZero | utils/commands/report.ts:59 | a name not seen yet has count and total zero, which is the `\|\| { total: 0, count: 0 }` default |
| Report.EntriesOf | utils/commands/report.ts:66-69 | one entry per key, in key order, with that key's total and count |
| Report.EntriesAreSummaries | utils/commands/report.ts:66-69 | the map's entries in key order are the summaries of those names |
| Report.Insert | utils/commands/report.ts:70 | insertion keeps the entries as a multiset |
| Report.SortByTotal | utils/commands/report.ts:70 | the sort is a permutation |
| Report.GenerateReport | utils/commands/report.ts:54-79 | the result has the expenses and range unchanged, the sum of costs, and the sorted summaries |
| Report.BuildAttachments | utils/commands/report.ts:163-170 | empty unless `includeJson`; then exactly one `expense-report.json` with the given content |
| Report.NewReporter | utils/commands/report.ts:26-33 | success exactly when both variables are set and non-empty; the API key is checked first, with the exact messages |
| ReportLemmas.InsertSorted | utils/commands/report.ts:70 | inserting into a sorted list keeps it sorted |
| ReportLemmas.SortIsSorted | utils/commands/report.ts:70 | `byCategory` is ordered by total, non-increasing |
| ReportLemmas.SortIsStable | utils/commands/report.ts:70 | for every total, the entries with that total keep their first-seen order |
| ReportLemmas.SortKeepsSums | utils/commands/report.ts:70 | sorting keeps the sums of counts and of totals |
| ReportLemmas.SortKeepsDistinct | utils/commands/report.ts:70 | sorting keeps category names distinct |
| ReportLemmas.SortMembers | utils/commands/report.ts:70 | sorting keeps exactly the same entries |
| ReportLemmas.FirstSeenDistinct | utils/commands/report.ts:57-64 | the map's keys are distinct |
| ReportLemmas.FirstSeenNames | utils/commands/report.ts:57-64 | the map's keys are exactly the category names that occur |
| ReportLemmas.SeenHasCount | utils/commands/report.ts:58-64 | every key has count at least 1 |
| ReportLemmas.SummariesAddUp | utils/commands/report.ts:54-64 | the counts add up to the number of expenses and the totals to `totalExpenses` |
| ReportLemmas.SummaryCategories | utils/commands/report.ts:57-69 | the summaries name each category that occurs exactly once |
| ReportLemmas.ByCategoryEntries | utils/commands/report.ts:57-70 | each `byCategory` entry has its category's count (at least 1) and total |
| ReportLemmas.ByCategoryNames | utils/commands/report.ts:57-70 | `byCategory` names each occurring category exactly once |
| ReportLemmas.ByCategorySummary | utils/commands/report.ts:54-70 | all of the above for `byCategory`: one entry per category, correct counts and totals, sorted, stable, sums matching |
| LegacyParser.BlankBounds | api/index.py:30 | white space lies at or below `' '` or at or above U+0085, so digits and letters are never stripped |
| LegacyParser.ParseCommand | api/index.py:22-50 | a failure is always HTTP 400 "Invalid command format"; an expense needs a match of the normal form; `get_balance` exactly when the normal form is `balance` and `get_last_transactions` exactly when it is `last` |
| LegacyParser.Classify | api/index.py:33-50 | a failure is always HTTP 400 "Invalid command format"; an expense comes only from a regular-expression match; `get_balance` exactly for `balance` and `get_last_transactions` exactly for `last` |
| LegacyParserLemmas.SpaceRunFacts | api/index.py:33 | the scan for `\s+` takes the longest white-space prefix |
| LegacyParserLemmas.DigitRunFacts | api/index.py:33 | the scan for `\d+` takes the longest digit prefix |
| LegacyParserLemmas.AmountLengthIsAmount | api/index.py:33 | the greedy amount is in the language of `\d+\.?\d*` |
| LegacyParserLemmas.AmountLengthExact | api/index.py:33 | an amount followed by white space is matched in full and no further |
| LegacyParserLemmas.LStripFacts | api/index.py:30 | `lstrip` removes exactly the leading white space |
| LegacyParserLemmas.RStripFacts | api/index.py:30 | `rstrip` removes exactly the trailing white space |
| LegacyParserLemmas.StripIsStripped | api/index.py:30 | `strip()` leaves no white space at either end |
| LegacyParserLemmas.StripSurrounded | api/index.py:30 | white space around a text does not change its strip |
| LegacyParserLemmas.StripOfStripped | api/index.py:30 | stripping a stripped text changes nothing |
| LegacyParserLemmas.MatchTailSound | api/index.py:33 | after the keyword, what the scan matches is in the pattern's language, with the amount and the rest as its groups |
| LegacyParserLemmas.MatchTailComplete | api/index.py:33 | after the keyword, every split the pattern accepts is found, with the same amount and the same stripped category |
| LegacyParserLemmas.MatchSound | api/index.py:33 | every match of the scan is in the language of `^(add\|spent)\s+(\d+\.?\d*)\s+(.+)$` |
| LegacyParserLemmas.MatchComplete | api/index.py:33 | on a stripped message every split the pattern accepts is found |
| LegacyParserLemmas.NormalizeIdempotent | api/index.py:30 | lower-casing and stripping twice equals once, and the outcome depends only on the normal form |
| LegacyParserLemmas.NormalFormIsLower | api/index.py:30 | `lower().strip()` yields lower-case text |
| LegacyParserLemmas.SurroundingSpaceIgnored | api/index.py:30 | white space around the message does not change the outcome |
| LegacyParserLemmas.AddSpentAgree | api/index.py:33 | `add` and `spent` give identical results for the same remainder |
| LegacyParserLemmas.ClassifyAdd | api/index.py:34-40 | a match is `add_expense` with the matched amount and the stripped category |
| LegacyParserLemmas.ParseAddComplete | api/index.py:30-40 | every message whose normal form the pattern accepts is an expense with that amount and the stripped rest |
| LegacyParserLemmas.ParseAddSound | api/index.py:30-40 | only such messages are expenses |
| LegacyParserLemmas.MatchShape | api/index.py:33-39 | on a stripped message the matched amount is an amount and the category strips to non-empty text |
| LegacyParserLemmas.AddedExpenseShape | api/index.py:33-40 | an expense's amount starts with a digit (`\d+\.?\d*`), so `.5` is rejected; its category is non-empty and stripped |
| LegacyParserLemmas.NoKeyword | api/index.py:33 | a message starting with neither `a` nor `s` never matches |
| LegacyParserLemmas.RejectIff | api/index.py:33-50 | HTTP 400 exactly when the normal form matches no split of the pattern and is neither `balance` nor `last` |

## Left out

- Lower-casing (`toLowerCase`, `str.lower`) covers only the ASCII letters. Other case mappings, including ones that change length, are not modelled.
- Python's `\d` covers only the ASCII digits. White space for `\s` and `strip()` is the ten ranges of `str.isspace()`.
- The JavaScript `\s` of the tokenizer is its own character class, separate from Python's.
- `Number(value)` and `new Date(value)` are abstract partial functions passed in as `Parser.Conversions`. Floating point and JavaScript date parsing are not modelled.
- LegacyParser.ParseCommand: the amount is kept as the matched text. `float(amount)` is not applied, because floating point is not modelled.
- Flag records are maps. Key order is not modelled, and neither are inherited `Object.prototype` names such as `toString` as flag names.
- Parser.ParseWith: the returned `id` is stated only for commands that declare no flag named `id`. When a flag named `id` is declared, it can overwrite the positional id, and the contract leaves that value open.
- Handlers are synchronous functions of their parameters. Promises, `await` and `console.error` logging are left out.
- Handler.ShortcutsHandler.ProcessCommand: "the handler is invoked at most once" is expressed only by the result being one application of the found handler. Side effects of handlers are not modelled.
- The Prisma query of `generateReport` is left out; its result list is an input. The HTML report, the Resend email send, `toLocaleString` formatting and `JSON.stringify` with base64 encoding are also left out; the encoded text is a parameter of `Report.BuildAttachments`.
- Report costs are whole numbers (cents). The floating-point sums of the source are not modelled.
- The `try`/`catch` of `validateRequest` is left out, because comparing two strings cannot throw. The environment value is a parameter.
- `process_command` and the FastAPI application of `api/index.py` are not part of this model. Neither are the user interface, the HTTP route, the zod schemas, the storage helpers and the diary command handler, which is an abstract handler here.
