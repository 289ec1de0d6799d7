# Global Weather Monitor: a Dafny model of its core logic

This models the logic of a small React client. The client asks a language
model for the weather of a city and shows the reply. The model covers:

- **Search history** (`App.tsx`). A successful search upserts its record at
  the front of the history. Cities are compared case-insensitively. After
  every upsert the history holds at most `MAX_HISTORY_ITEMS` (6) entries; a
  history restored from storage is not cut. The history is persisted after
  every change.
- **The search transition** (`handleSearch`). It has a blank-input guard, a
  busy phase, and the success and failure outcomes.
- **Start-up restore** of the theme and the history from browser storage,
  and the theme toggle.
- **Background palette.** The first substring test on the lower-cased icon
  identifier that matches picks the palette.
- **The "other searches" view.** It filters out the displayed city, keeps
  history order and is cut to 6 entries.
- **Reply post-processing** in `services/geminiService.ts`:
  - the code fence is stripped with the regex `/^```(\w*)?\s*\n?(.*?)\n?\s*```$/s`;
  - the parsed value is validated in source order;
  - `cityImageUrl` is sanitised;
  - every Error thrown inside the `try` is rewrapped under the
    "Gemini API request failed: " prefix; a thrown value that is not an Error
    becomes the unexpected-error message; the missing-key Error is thrown
    before the `try` and is not wrapped.
- **The icon switch** of `components/WeatherIcon.tsx`. It maps the
  upper-cased identifier to a glyph and colour class, with a fallback.
- **The submit guard** of `components/SearchBar.tsx`. It trims the input and
  submits only when that is non-blank. The input and button are disabled
  while loading.

Sources by Dafny module:

| Dafny module | Source |
|---|---|
| `JsString` (js_string.dfy) | the JavaScript string primitives these files use: `trim`, ASCII `toLowerCase`/`toUpperCase`, `includes`, the `\s` and `\w` classes |
| `WeatherTypes` (weather_types.dfy) | `types.ts` |
| `SearchHistory` (search_history.dfy) | the history update of `App.tsx` |
| `App` (app.dfy) | `App.tsx` |
| `GeminiService` (gemini_service.dfy) | `services/geminiService.ts` |
| `WeatherIcon` (weather_icon.dfy) | `components/WeatherIcon.tsx` |
| `SearchBar` (search_bar.dfy) | `components/SearchBar.tsx` |
| `Wrappers` (wrappers.dfy) | `Option` and `Result` |

State the source changes in place is modelled as classes:

- `SearchHistory.SearchHistoryStore` is the `searchHistory` state. Its
  `Upsert` copies, splices, unshifts and slices, as `App.tsx` does. It is
  proved equal to the specification function `Upserted`, and every history
  property is a lemma about `Upserted`.
- `App.AppState` holds `weatherData`, `isLoading`, `error`, `theme`, the
  history and `localStorage`. The two persistence effects are folded into
  the methods that change what they watch. The invariant `Persisted()` says
  storage holds the current theme and history.
- `SearchBar.SearchBar` holds `inputValue`.

The service's `getWeatherForCity` is one method, `GeminiService.GetWeatherForCity`:

- it reassigns `jsonStr` and overwrites `parsedData.cityImageUrl`, as the
  source does;
- it is proved equal to the function `FetchOutcome`, about which the
  service's promises are proved.

The remote call and `JSON.parse` are inputs:

- the reply text, or the value it threw;
- a parse function that returns a value or a SyntaxError message.

## Model

| member | source | states |
|---|---|---|
| JsString.IsWhitespace | components/SearchBar.tsx:13 | definition (no contract): the ECMAScript WhiteSpace and LineTerminator characters, which `trim` removes and `\s` matches |
| JsString.IsWordChar | services/geminiService.ts:55 | definition (no contract): the characters `\w` matches: ASCII letters, digits and `_` |
| JsString.TrimStart | components/SearchBar.tsx:13 | the result is a suffix of the input, everything dropped is whitespace, and it does not start with whitespace |
| JsString.TrimEnd | components/SearchBar.tsx:13 | the result is a prefix of the input, everything dropped is whitespace, and it does not end with whitespace |
| JsString.Trim | components/SearchBar.tsx:13 | `trim` has no whitespace at either end, leaves a trimmed string unchanged, and is empty exactly when the input is all whitespace |
| JsString.TrimIdempotent | components/SearchBar.tsx:13-14 | trimming twice equals trimming once |
| JsString.ToLowerCase | App.tsx:74 | definition (no contract): `toLowerCase` maps each ASCII capital to its small letter and keeps every other character; the length is unchanged |
| JsString.ToUpperCase | components/WeatherIcon.tsx:12 | definition (no contract): `toUpperCase` maps each ASCII small letter to its capital and keeps every other character |
| JsString.Includes | App.tsx:101-106 | definition (no contract): `includes` holds iff the text occurs at some index of the string |
| JsString.CaseFoldingAgrees | components/WeatherIcon.tsx:12 | upper-casing after lower-casing equals upper-casing; two strings are equal upper-cased iff they are equal lower-cased |
| SearchHistory.SameCity | App.tsx:74 | definition (no contract): `a.toLowerCase() === b.toLowerCase()`, the city comparison of the upsert and of the "other searches" filter |
| SearchHistory.Take | App.tsx:80-82 | the slice keeps the first min(length, n) entries and nothing else |
| SearchHistory.RemoveFirstMatch | App.tsx:74-77 | without a case-insensitive match the list is unchanged; with one it is one shorter; no new entries appear |
| SearchHistory.RemoveFirstMatchSplices | App.tsx:74-77 | exactly the entry at the first matching index is spliced out; all others keep their order |
| SearchHistory.Upserted | App.tsx:73-84 | the new record is at index 0; the length is at most 6; without a prior match it is min(k+1, 6), with one it is min(k, 6) |
| SearchHistory.RemoveFirstMatchDistinct | App.tsx:74-77 | removing the first match keeps case-insensitively distinct cities distinct and leaves no entry for the city |
| SearchHistory.UpsertKeepsCitiesDistinct | App.tsx:73-84 | an upsert into a history with distinct cities gives a history with distinct cities |
| SearchHistory.UpsertReplacesCityEntry | App.tsx:73-84 | after an upsert into a duplicate-free history, no entry after the first has the new record's city |
| SearchHistory.UpsertIdempotent | App.tsx:73-84 | upserting the same record twice gives the same history as once |
| SearchHistory.UpsertKeepsOrder | App.tsx:74-82 | the result is the new record followed by the old history with only the first match removed, in order, then cut to 6 |
| SearchHistory.UpsertEvictsOldest | App.tsx:79-82 | a new city upserted into a full history evicts the last (oldest) entry |
| SearchHistory.LondonParisLondon | App.tsx:73-84 | London, Paris, London (new) gives [London (new), Paris] |
| SearchHistory.FindIndex | App.tsx:74 | the loop returns -1 exactly when no entry matches, and otherwise the first matching index |
| SearchHistory.SearchHistoryStore.constructor | App.tsx:30 | the store starts with the given entries |
| SearchHistory.SearchHistoryStore.Upsert | App.tsx:73-84 | the in-place update leaves the history equal to `Upserted(old history, record)` |
| GeminiService.WordRunEnd | services/geminiService.ts:55 | `\w*` ends at the end of the longest run of word characters |
| GeminiService.SpaceRunEnd | services/geminiService.ts:55 | `\s*` ends at the end of the longest run of whitespace |
| GeminiService.FenceCapture | services/geminiService.ts:55-56 | the regex matches exactly when the text is at least six characters long and starts and ends with a triple backtick |
| GeminiService.FenceCaptureIsRegexChoice | services/geminiService.ts:55-56 | the capture is the group-2 text the backtracking order selects: longest tag, longest whitespace run, shortest lazy body before trailing whitespace |
| GeminiService.StripFence | services/geminiService.ts:53-59 | the text handed to `JSON.parse` is trimmed |
| GeminiService.StripFenceYieldsPayload | services/geminiService.ts:53-59 | for "```tag\nP\n```" with a word-character tag and P trimmed, non-empty and starting with `{`, the regex captures exactly P and the text parsed is exactly P |
| GeminiService.StripFenceOfCapture | services/geminiService.ts:53-59 | trimmed text whose capture is non-empty and trimmed is replaced by exactly that capture |
| GeminiService.BareObjectUnstripped | services/geminiService.ts:53-59 | a trimmed text starting with `{` does not match the fence regex and is parsed as it is |
| GeminiService.OutcomeFollowsStrippedText | services/geminiService.ts:53-86 | two replies that strip to the same text have the same outcome |
| GeminiService.StripFenceLeavesUnfenced | services/geminiService.ts:53-59 | text that does not match the regex after trimming is only trimmed |
| GeminiService.StripFenceLeavesEmptyCapture | services/geminiService.ts:57 | an empty capture leaves the trimmed text unchanged |
| GeminiService.GluedWordIsLanguageTag | services/geminiService.ts:55-57 | "```json```" captures the empty string (the word is the tag) and is left as it is |
| GeminiService.SanitizeImageUrl | services/geminiService.ts:72-75 | afterwards `cityImageUrl` is absent, null or a string; an acceptable value is untouched; any other becomes null; every other key reads the same |
| GeminiService.ApiKeyConfigured | services/geminiService.ts:40 | definition (no contract): `!API_KEY` is false exactly for a present, non-empty key |
| GeminiService.ImageUrlAcceptable | services/geminiService.ts:72 | definition (no contract): `cityImageUrl` is undefined, null or a string |
| GeminiService.Property | services/geminiService.ts:63-72 | definition (no contract): a property read gives the field of an object, and `undefined` on arrays, strings, numbers and booleans; a null value never reaches a property read, because `Validate` rejects it first |
| GeminiService.Truthy | services/geminiService.ts:63-67 | definition (no contract): JavaScript truthiness; `undefined`, null, false, 0, NaN and "" are falsy, arrays and objects are truthy |
| GeminiService.IsNumber | services/geminiService.ts:67 | definition (no contract): `typeof ... === 'number'` holds exactly for a present number |
| GeminiService.Unprintable | services/geminiService.ts:64 | definition (no contract): an object with its own `toString` key, or an array holding such a value at any depth, has no string conversion |
| GeminiService.ValueText | services/geminiService.ts:64 | the template-literal conversion `String(v)` throws exactly for an unprintable value, with "Cannot convert object to primitive value"; a string converts to itself, any other object to "[object Object]" |
| GeminiService.JoinedText | services/geminiService.ts:64 | `join(",")` of array elements throws exactly when some element is unprintable, with the same TypeError message; the empty array gives "" |
| GeminiService.NotFoundMessage | services/geminiService.ts:64 | the template literal throws exactly when `error`, or a truthy `city`, is unprintable; otherwise it is "<error> (City: <city if truthy, else the requested city>)" |
| GeminiService.Validate | services/geminiService.ts:61-78 | a validated value is an object with a truthy `city`, a number `temperatureCelsius` and an acceptable `cityImageUrl`; the failures by case are stated by `NullReplyReported`, `ErrorReplyReported`, `UnprintableErrorReplyReported` and `MalformedReplyReported`, and a parse failure by `ParseFailureRewrapped` |
| GeminiService.Rethrown | services/geminiService.ts:80-85 | the `catch` always throws an Error; an Error's message gets the request-failed prefix; any other value becomes the unexpected-error message |
| GeminiService.FetchOutcome | services/geminiService.ts:39-86 | the call resolves only with an object and rejects only with an Error |
| GeminiService.StripFenceStep | services/geminiService.ts:53-59 | the statement sequence that reassigns `jsonStr` computes `StripFence` |
| GeminiService.GetWeatherForCity | services/geminiService.ts:39-86 | the step-by-step service call returns exactly `FetchOutcome` of its inputs |
| GeminiService.MissingKeyFailsUnprefixed | services/geminiService.ts:40-42 | without a key the call fails with exactly "Gemini API key is not configured.", which does not carry the request-failed prefix |
| GeminiService.FailuresAreErrors | services/geminiService.ts:80-85 | every failure is an Error whose message is the missing-key message, the unexpected-error message, or starts with the request-failed prefix |
| GeminiService.TransportFailureRewrapped | services/geminiService.ts:80-85 | a thrown Error comes back as prefix + its message; any other thrown value as "An unexpected error occurred while fetching weather data." |
| GeminiService.ErrorReplyReported | services/geminiService.ts:63-64 | a parsed value with a truthy, convertible `error` (and a convertible `city` when truthy) fails with prefix + "<error> (City: <city, or the requested city if falsy>)", whatever its other fields |
| GeminiService.RejectedReplyRewrapped | services/geminiService.ts:61-83 | a parsed value that validation rejects with a message fails with prefix + that message |
| GeminiService.UnprintableErrorReplyReported | services/geminiService.ts:63-64 | when the truthy `error`, or a truthy `city`, has no string conversion, the call fails with prefix + "Cannot convert object to primitive value" |
| GeminiService.ObjectErrorWithToString | services/geminiService.ts:63-64 | the reply `{"error": {"toString": "x"}}` for Rome fails with prefix + "Cannot convert object to primitive value" |
| GeminiService.ParseFailureRewrapped | services/geminiService.ts:61-83 | a stripped text that `JSON.parse` rejects fails with prefix + the SyntaxError's message |
| GeminiService.NullReplyReported | services/geminiService.ts:61-83 | a reply that parses to null fails with prefix + "Cannot read properties of null (reading 'error')" |
| GeminiService.MalformedReplyReported | services/geminiService.ts:67-68 | a non-null parsed value without a truthy `error` and with a falsy `city` or a non-number `temperatureCelsius` fails with prefix + "Received malformed weather data from API." |
| GeminiService.SuccessExactly | services/geminiService.ts:61-78 | the call succeeds iff key set, request returned, parse succeeded, value non-null, `error` falsy, `city` truthy of any type, `temperatureCelsius` a number; the value is the parsed one after `SanitizeImageUrl` |
| GeminiService.FencedReplyAsBare | services/geminiService.ts:53-61 | a fenced JSON object text and the bare text get the same outcome |
| GeminiService.ParisResolves | services/geminiService.ts:61-78 | a complete reply for Paris resolves, and its `city` is "Paris" |
| GeminiService.AtlantisNotFound | services/geminiService.ts:63-64 | the provider's not-found reply for Atlantis fails with prefix + "City not found or data unavailable (City: Atlantis)" |
| App.Lookup | App.tsx:21 | definition (no contract): `localStorage.getItem` gives the stored string, or null for a missing key |
| App.RestoredTheme | App.tsx:20-28 | a stored non-empty theme is used as it is; absent or empty gives 'light'; the result is never empty |
| App.Toggled | App.tsx:53-55 | the toggle always yields 'light' or 'dark' and always differs from the current theme |
| App.ToggleTwiceRestores | App.tsx:53-55 | toggling light or dark twice restores it |
| App.ThemeSurvivesReload | App.tsx:20-22 | a persisted theme is restored unchanged; toggling an unknown restored theme gives 'light' |
| App.RestoredHistory | App.tsx:30-38 | an absent, empty or undecodable stored history restores as [] |
| App.HistorySurvivesReload | App.tsx:30-51 | a persisted history is restored when decoding undoes encoding |
| App.Background | App.tsx:98-117 | definition (no contract): without data dark gives from-slate-700 to-slate-900 and any other theme from-sky-400 to-blue-600; with data the first keyword of night, rain/thunderstorm, snow, fog in the lower-cased identifier picks the palette, else the day palette |
| App.BackgroundDependencies | App.tsx:98-117 | with data the theme plays no part; an identifier without any keyword gets the day palette, so the clear/sun branch changes nothing |
| App.NightIdentifiersBackground | App.tsx:100-102 | CLEAR_NIGHT, PARTLY_CLOUDY_NIGHT and SHOWERS_NIGHT get the night palette |
| App.StormIdentifiersBackground | App.tsx:100-103 | RAIN and THUNDERSTORM get the storm palette |
| App.SnowAndFogBackground | App.tsx:100-105 | SNOW gets the snow palette, FOG the fog palette |
| App.NoNOrFMeansDayPalette | App.tsx:100-107 | any identifier without the letters N and F (either case) gets the day palette |
| App.DayIdentifiersBackground | App.tsx:100-107 | CLEAR_DAY, CLOUDY and SHOWERS_DAY get the day palette |
| App.PartlyCloudyAndWindyBackground | App.tsx:100-107 | PARTLY_CLOUDY_DAY and WINDY get the day palette |
| App.WithoutCity | App.tsx:169 | the filter keeps exactly the entries whose city differs case-insensitively, as a subsequence of the history |
| App.WithoutCityKeepsCopies | App.tsx:169 | every copy of an entry of another city is kept and every copy of an entry of the displayed city dropped |
| App.OtherSearches | App.tsx:168-170 | exactly the first min(k, 6) of the k filtered entries: none for the displayed city, in history order; when at most 6 remain all are shown |
| App.ErrorMessage | App.tsx:86-91 | definition (no contract): an Error shows its message, any other thrown value 'An unknown error occurred.' |
| App.ServiceFailureNeverUnknown | App.tsx:86-91 | a failed service call is always an Error, so the app shows its message and never 'An unknown error occurred.' |
| App.AppState.Persisted | App.tsx:40-51 | definition (no contract): storage holds the current theme under its key and the encoded current history under its key, as the two effects write them |
| App.AppState.constructor | App.tsx:20-51 | start-up restores theme and history, shows nothing, is idle, and writes both back to storage |
| App.AppState.ToggleTheme | App.tsx:53-55 | the theme is toggled and persisted; nothing else changes |
| App.AppState.BeginSearch | App.tsx:57-66 | proceeds iff the trimmed city is non-empty; blank input sets "Please enter a city name.", clears the weather and leaves `isLoading`; otherwise busy, no error, no weather |
| App.AppState.CompleteSearch | App.tsx:68-95 | success shows the record and upserts and persists the history; failure shows the error message and clears the weather with the history untouched; `isLoading` ends false |
| App.AppState.HandleSearch | App.tsx:57-96 | blank input fetches nothing; otherwise exactly one fetch with the untrimmed city and the success or failure state above; only success changes the history |
| WeatherIcon.BaseClasses | components/WeatherIcon.tsx:10 | definition (no contract): "inline-block <size> text-yellow-300 filter drop-shadow-lg" |
| WeatherIcon.ColourClass | components/WeatherIcon.tsx:13-59 | definition (no contract): the colour class each case appends, from text-yellow-400 for the sun to text-gray-400 for the fallback |
| WeatherIcon.GlyphFor | components/WeatherIcon.tsx:12-63 | the fallback is chosen exactly for keys outside the 12 listed, the rain glyph exactly for RAIN, SHOWERS_DAY and SHOWERS_NIGHT |
| WeatherIcon.Render | components/WeatherIcon.tsx:9-63 | fallback iff the upper-cased identifier is unknown; the class list is the base classes with the given or default size, then the glyph's colour |
| WeatherIcon.RenderIgnoresCase | components/WeatherIcon.tsx:12 | identifiers equal up to case render the same |
| WeatherIcon.GlyphsDistinctOutsideRainGroup | components/WeatherIcon.tsx:13-59 | two different known identifiers share a glyph only when both are in the rain group |
| WeatherIcon.ColourTable | components/WeatherIcon.tsx:13-63 | gray-400 is the fallback's colour alone, yellow-400 the day glyphs', indigo-300 the night glyphs', blue-400 the rain glyph's |
| WeatherIcon.ColoursByIdentifier | components/WeatherIcon.tsx:13-63 | each colour class belongs to exactly the identifiers of the source's table, gray-400 to exactly the unknown ones |
| WeatherIcon.LowerCaseIdentifiers | components/WeatherIcon.tsx:12 | "showers_night" draws the rain glyph, "clear_day" the sun, "sunny" the fallback |
| WeatherIcon.SizeAlwaysApplied | components/WeatherIcon.tsx:9-10 | the given size classes, or "w-16 h-16" by default, always appear in the class list |
| SearchBar.SearchBar.constructor | components/SearchBar.tsx:9 | the input starts empty |
| SearchBar.SearchBar.Type | components/SearchBar.tsx:27-30 | typing replaces the value unless the input is disabled while loading |
| SearchBar.SearchBar.HandleSubmit | components/SearchBar.tsx:11-16 | `onSearch` is called iff the input is not all whitespace, with the trimmed input, which is non-empty and trimmed |
| SearchBar.SearchBar.Submit | components/SearchBar.tsx:33-35 | while loading the disabled button submits nothing; otherwise as `HandleSubmit` |
| SearchBar.SubmittedCityPassesGuard | components/SearchBar.tsx:13-14 | what the search bar submits is unchanged by the app's trim and never hits its blank-input guard |

## Left out

- Network, prompt and model configuration (services/geminiService.ts:1-36, 44-51). The reply text, or the value the call threw, is an input. One call gives one input, so there is no retry. A reply whose `text` is undefined is not represented.
- `JSON.parse` and `JSON.stringify`. These are function parameters: the service's `parse`, and the app's `decode` and `encode`. Their own behaviour is not modelled.
- `App.RestoredHistory`: a stored history that parses to something other than a list (for example "null") is outside the model. `decode` returns a list or nothing.
- The unchecked `parsedData as WeatherData` cast. The service returns the sanitised JSON value. The app's `fetch` parameter returns a `WeatherData` record or the thrown value. The conversion between them is not modelled. What follows from it is therefore not captured either: a reply with a truthy non-string `city` passes validation (`GeminiService.SuccessExactly` states this), and so does one without `iconIdentifier`; the app then calls `toLowerCase` on a non-string at App.tsx:74, 101 or 169 and throws. `App.AppState` cannot express that crash, because its `fetch` returns a typed `WeatherData` whose fields are strings.
- JavaScript numbers. They are kept as their canonical `String()` rendering. Truthiness is "not 0 and not NaN". `typeof … === 'number'` is the number case of the JSON value.
- Case mapping is ASCII-only in `JsString.ToLowerCase` and `JsString.ToUpperCase`. JavaScript's full Unicode mapping, including length-changing mappings, is not modelled.
- `GeminiService.NullPropertyMessage`: the TypeError text for `null.error` is V8's wording. Other engines word it differently.
- `GeminiService.ConversionMessage`: the TypeError text for an object without a string conversion is also V8's wording.
- Browser I/O:
  - `localStorage` is a map field;
  - the `dark` class on `document.documentElement` (App.tsx:42-46) is left out;
  - so are `console.error` and `console.warn`.
- async/await and overlapping searches. `handleSearch` is one sequential transition. Stale responses are not suppressed in the source, and that interleaving is not modelled.
- `App.Background` is a function of the displayed weather and the theme. The `appBackground` state that the effect sets is not a field.
- The unused `currentCitySearch` state is left out. So are the render conditions of App.tsx:136-162, apart from the "other searches" list.
- Presentation:
  - `formatTime` depends on `Date` and the locale;
  - HistoryCard, StatCard, ThemeToggleButton, ErrorDisplay and WeatherDisplay are left out;
  - the SVG paths of the icons are represented only by the `Glyph` they draw.
- `WeatherIcon.Render`: `className` is `None` when the prop is undefined. JavaScript default parameters treat an explicit `undefined` the same way.
