# signalk-flags core, modelled in Dafny

The plugin `signalk-flags` (`src/index.ts`) works out a vessel's flag state
and port of registry from its MMSI (Maritime Mobile Service Identity) and
serves flag icons. Its first three characters are the MID (Maritime
Identification Digits), the key into a fixed table of countries. This
project models the plugin's logic as pure Dafny functions over immutable
data:

- **Resolver**: `countryFromMmsi`. A number is rendered in decimal, the
  string is cut to its first three characters, and that key is looked up in
  the MID table. The table is a parameter `map<string, seq<string>>`. A miss
  is `None`.
- **Annotator**: the delta callback registered in `initSubscriptions`.
  Every value entry on the root path `""` whose value is an object with an
  `mmsi` key that resolves becomes one outgoing `{flag, port}` message on
  the same context. JavaScript values are a `Value` datatype, and truthiness
  is written out. A `TypeError` the callback would throw is also modelled: a
  truthy primitive value makes `'mmsi' in value` throw, and an `mmsi` that
  is neither number nor string makes `mmsi.slice` throw. A run stops at the
  first throwing entry.
- **Assets**: `initFs`. The anchor is cut from the resolved data-directory
  path. The production and development candidates are built under it, and
  the first accessible candidate is chosen. Accessibility is an oracle
  `string -> bool`.
- **Icons**: `iconFromCountryCode` and `iconFromMmsi`. They build the icon
  path and map failures to the `{state: "FAILED", statusCode: 400, message}`
  envelope. File readability is an oracle.
- **Lifecycle**: `doStartup`/`doShutdown` over the plugin's two pieces of
  state, the unsubscribe list and the icon base path.
- **JsStrings**: the JavaScript primitives these rely on (`slice`,
  `toLowerCase`, `split`, `join`, `indexOf`, `Number.prototype.toString`),
  with their round-trip properties.

Where the intended design of the plugin and its code disagree, the model follows the
code:

- An identifier shorter than three characters is looked up as it is. It is
  "not found" only if the table has no such key. `ShortIdentifierNotFound`
  proves "not found" under the hypothesis that all keys have three
  characters.
- The anchor is the *first* `.signalk` segment of the path, not the nearest
  ancestor.
- The MMSI route answers with the MMSI message for an unknown MID, for a
  table row without a first element, and for an unreadable file. All three
  land in the one `catch`.
- `doShutdown` does not reset the icon base path. A later start that finds
  no icon directory keeps the earlier path (`RestartKeepsEarlierBase`).
- The filter is not "an object containing `mmsi`". A truthy non-object value
  on the root path throws and ends the callback.
- With no anchor, `path.join` drops the empty first argument. The
  candidates are then the relative paths `node_modules/flag-icons/flags` and
  `node_modules/signalk-flags/node_modules/flag-icons/flags`. An icon path
  under such a base is relative, which `res.sendFile` refuses by throwing,
  so both icon routes then always answer with their error
  (`RelativeBaseNeverServes`).
- With the icon base path never set, the icon routes do not fail outright.
  The path becomes `/<aspect>/<code>.svg` at the filesystem root, and a
  readable file there is served (`UnsetBaseServesFromRoot`).

## Model

| member | source | states |
|---|---|---|
| JsStrings.Take | src/index.ts:308 | `slice(0, 3)` yields a prefix of the string, of length three or the whole string when shorter |
| JsStrings.LowerIsIdempotent | src/index.ts:243 | the lower-cased code has no upper-case letter, and lower-casing again changes nothing |
| JsStrings.LowerKeepsOtherChars | src/index.ts:243 | lower-casing neither adds nor removes non-letters such as `/`, so the code cannot change the directory structure of the icon path |
| JsStrings.JoinSplit | src/index.ts:174-175 | joining the `/`-split segments with `/` gives back the original path |
| JsStrings.SplitJoin | src/index.ts:174-175 | splitting a `/`-join of slash-free segments recovers exactly those segments |
| JsStrings.SplitPartsAreSeparatorFree | src/index.ts:174 | no segment produced by `split('/')` contains a `/` |
| JsStrings.SplitConcat | src/index.ts:243 | splitting `x + "/" + y` gives the segments of `x` followed by those of `y` |
| JsStrings.JoinPrefix | src/index.ts:175 | joining a leading run of segments gives a prefix of the joined path |
| JsStrings.IndexOf | src/index.ts:175 | `indexOf` is -1 exactly when the element is absent; otherwise that position holds it and no earlier one does |
| JsStrings.Digits | src/index.ts:305-307 | the decimal rendering is at least one digit, all digits, and has no leading zero: only `0` itself starts with `0` |
| JsStrings.DigitsRoundTrip | src/index.ts:305-307 | parsing the decimal rendering of a natural number gives the number back |
| JsStrings.NumberToStringRoundTrip | src/index.ts:305-307 | integer `toString` is invertible, and it starts with `-` exactly for negative numbers |
| JsStrings.LeadingThreeOfNine | src/index.ts:305-308 | the first three characters of a nine-digit number's rendering are the digits of `n / 1000000` |
| Resolver.MidOf | src/index.ts:304-308 | the MID is a prefix of the identifier's string form, three characters long or all of a shorter string |
| Resolver.CountryFromMmsi | src/index.ts:304-310 | resolution succeeds exactly when the MID is a table key, and then returns that key's row |
| Resolver.SamePrefixSameCountry | src/index.ts:308-309 | two identifiers with the same first three characters resolve alike, whatever follows |
| Resolver.NumberResolvesAsDecimal | src/index.ts:305-307 | a numeric MMSI resolves exactly as its decimal string |
| Resolver.NineDigitMid | src/index.ts:305-308 | the MID of a nine-digit numeric MMSI is its three leading digits, `n / 1000000` |
| Resolver.ShortIdentifierNotFound | src/index.ts:308-309 | when all keys have three characters, an identifier shorter than three never resolves |
| Resolver.ResolutionDependsOnlyOnMidRow | src/index.ts:309 | two tables that agree on the MID's row give the same answer: no other row is consulted |
| Annotator.FlagMessage | src/index.ts:145-161 | an emitted message has the given context and one update with exactly two values, `flag = country[0]` then `port = country[3]` (`undefined` past the row's end) |
| Annotator.EntryEffectOf | src/index.ts:141-144 | a non-root path, a falsy value or an object without `mmsi` is ignored; a truthy primitive throws; for a root-path object with `mmsi`, a value that is neither number nor string throws, and otherwise the entry is annotated exactly when its MID is in the table (an unresolved one is ignored), with the row it resolves to |
| Annotator.Run | src/index.ts:137-165 | a run emits at most one message per entry, all on the delta's context |
| Annotator.OnDelta | src/index.ts:132-137 | a delta without `updates` emits nothing and completes; every message carries the delta's context |
| Annotator.RunCompletesIffNoThrow | src/index.ts:141-143 | the callback completes exactly when no entry throws |
| Annotator.RunMessagesFromTable | src/index.ts:143-161 | every emitted message is the flag message of some row of the MID table |
| Annotator.CompletedRunEmitsResolved | src/index.ts:141-161 | a run that does not throw emits exactly one message per resolvable identity entry, in entry order, equal to a filter of the entries that keeps each root-path object whose `mmsi` is a number or string with a MID in the table |
| Annotator.RunAppend | src/index.ts:137-141 | processing two stretches of entries in sequence equals processing the first, then the second only if the first did not throw |
| Annotator.EntryContribution | src/index.ts:141-164 | a reached entry adds nothing when ignored and exactly its own message when resolved; when it throws, the run ends and no later entry is visited |
| Annotator.EmptyDeltaEmitsNothing | src/index.ts:133-140 | a delta without updates, or whose updates all lack values, emits nothing |
| Annotator.SingleIdentityEntry | src/index.ts:141-161 | one entry `{path: "", value: {mmsi: n}}` with resolvable `n` yields exactly one message with that country's flag and port |
| Annotator.DeliverDelta | src/index.ts:132-166 | the nested `forEach` loops emit exactly the messages of the functional model, in order, and report whether they finished |
| Assets.NonEmpty | src/index.ts:177-186 | `path.join` keeps exactly the non-empty arguments: every non-empty argument survives, no empty one does, and arguments that are all non-empty are kept as given |
| Assets.Anchor | src/index.ts:174-175 | without a `.signalk` segment the anchor is `""`; otherwise it is a prefix of the resolved path |
| Assets.AnchorSegments | src/index.ts:174-175 | the anchor's segments are the path's segments up to and including the first `.signalk`; it ends in `.signalk` and has no earlier `.signalk` |
| Assets.ProductionCandidate | src/index.ts:185-186 | the production candidate is `anchor/node_modules/flag-icons/flags`, or that suffix alone when there is no anchor |
| Assets.DevelopmentCandidate | src/index.ts:176-184 | the development candidate is `anchor/node_modules/signalk-flags/node_modules/flag-icons/flags`, or that suffix alone when there is no anchor |
| Assets.CandidatesDiffer | src/index.ts:176-186 | the two candidates are never the same path |
| Assets.ChooseBase | src/index.ts:188-202 | production when it is accessible; otherwise development when it is accessible; otherwise the base path is unchanged |
| Assets.InitFs | src/index.ts:173-203 | a changed base path is one of the two candidates, and it is accessible |
| Assets.ProductionPreferred | src/index.ts:188-191 | whenever production is accessible it is chosen, whether or not development is |
| Icons.NotFound | src/index.ts:255-260 | a failure is HTTP 400 with body `state = "FAILED"`, `statusCode = 400` and the given message |
| Icons.IconFromCountryCode | src/index.ts:237-263 | the file `base/aspect/lower(code).svg` is sent exactly when it is readable and its path is absolute, with aspect `4x3` by default; otherwise the country-code message is returned, with the code as given |
| Icons.IconFromMmsi | src/index.ts:270-297 | an unknown MID fails with the MMSI message; a sent file is readable and is the icon of the resolved row's first element, and that icon is sent whenever it is readable and its path is absolute; every failure carries the MMSI message |
| Icons.MmsiRouteMatchesCountryRoute | src/index.ts:270-297 | for a resolvable MMSI, the MMSI route sends exactly the file the country route sends for the resolved code, and fails exactly when that route fails |
| Icons.CountryCodeCaseInsensitive | src/index.ts:243 | codes differing only in letter case are served the same file |
| Icons.IconPathSegments | src/index.ts:243 | the icon path's segments are the base path's segments, then the aspect, then `lower(code).svg` |
| Icons.UnsetBaseServesFromRoot | src/index.ts:243-280 | with an empty base path both routes serve `/<aspect>/<code>.svg` from the filesystem root whenever that file is readable |
| Icons.RelativeBaseNeverServes | src/index.ts:242-296 | with a relative base path the country route always answers with the country-code message and the MMSI route with the MMSI message, whatever is readable |
| Icons.ServedPathsAreIcons | src/index.ts:243-246 | every path handed to `sendFile` lies in `base/aspect/` and ends in `.svg` |
| Lifecycle.Start | src/index.ts:104-110 | start appends the newly registered unsubscribe callbacks to the existing list; the base path either stays or becomes an accessible one |
| Lifecycle.Shutdown | src/index.ts:92-99 | every registered unsubscribe callback is called once, in list order; afterwards the list is empty and the base path is untouched |
| Lifecycle.FirstStartWithoutAssets | src/index.ts:47 | a first start that finds neither icon directory leaves the base path `""` |
| Lifecycle.RestartKeepsEarlierBase | src/index.ts:92-99 | stop does not reset the base path; a restart that finds no icon directory keeps the earlier one |

## Left out

- Express routing and `res.status().json()`. A route's response is reduced to the returned `Outcome`.
- The async error callback of `res.sendFile` (src/index.ts:246-254). `SendFile(path)` is the point where the model stops. Of `res.sendFile`'s own checks, only its synchronous `TypeError` for a path that is not absolute is modelled (`Icons.IsAbsolute`). That behaviour belongs to Express, which is not part of this model.
- Filesystem access. `access(..., W_OK | R_OK)` and `access(..., R_OK)` become the oracles `accessible` and `readable`.
- `path.resolve`. The model takes the already resolved data-directory path as input.
- `path.join` normalisation (`..`, repeated slashes). This makes no difference for an anchor cut from a resolved path.
- Logging, `setPluginStatus`/`setPluginError`, option saving, the configuration schema, `registerWithRouter` and `getOpenApi`. These are host plumbing with no effect on the results.
- The subscription manager and `handleMessage`. `Start` takes the callbacks the manager registers as a parameter. `DeliverDelta` returns the messages it would hand to `handleMessage`. What the host does with a thrown `TypeError` is not modelled.
- The subscription error callback, which only logs, and the 500 ms delivery period.
- Async ordering. `initFs` is not awaited, so a request arriving before it finishes sees the previous base path. The model runs `initFs` to completion inside `Start`.
- Route registration across starts. Every start, including one after a stop, registers the HTTP routes again. Only the subscription list is modelled across starts.
- An unsubscribe callback that throws, which would abort `doShutdown` before the list is cleared.
- The contents of the MID table. The table is a parameter of every operation.
- JavaScript arrays as values, and an `aspect` query given more than once (which makes it an array).
- Non-integral numbers and numbers from 1e21 up, which `toString` renders in exponent form. Numbers are integers rendered in plain decimal.
- JsStrings.Lower: lower-cases only the ASCII letters `A`-`Z`, where `toLowerCase` also handles the rest of Unicode.
- Strings are sequences of Unicode scalar values rather than UTF-16 code units.
- Inherited `Object.prototype` keys in the table lookup. None is three characters or shorter.
