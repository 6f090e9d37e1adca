# Locality list view: list query, debounce cell, shared state and display formatting

This project models the core of a Nuxt/Vue client that shows a paginated list of localities
fetched from a REST endpoint, and proves properties of that model in Dafny.

- **List query** (`useLocalities`): the `page` and `pageSize` cells (initially 1 and 20) and the
  values derived from them: the query parameters `{limit, offset, expand}` with
  `offset = (page - 1) * pageSize`, and, from the fetched response, `results`, `total` and
  `totalPages = max(1, ceil(total / pageSize))`. The response is an input `Option<ApiPage>`
  (`None` before the first fetch settles). `LocalitiesQuery` is a class holding the two cells;
  the derived values are functions of them. JavaScript's division by a zero page size is modelled
  (`PositiveInfinity`, `NotANumber`, or 1 for a negative total).
- **Debounce cell** (`useDebouncedRef`): a single-slot timer state machine on an integer
  millisecond clock. The pure functions `Initial`, `AfterChange`, `AfterAdvance` and
  `AfterDispose` are the specification; the class `DebouncedRef` updates its fields in place and
  each of its methods is proved to move its state exactly as the matching function does.
  A source write replaces the one pending timer with one due `delay` (default 350 ms) later;
  the watcher only runs when the value actually changes; a due timer commits the value of the
  latest change; disposing the scope clears the timer and stops the watcher.
- **Shared list state** (`useLocalitiesListState`): Nuxt's `useState` as a get-or-create lookup
  in a keyed store (`map<string, StateValue>`) with the keys `localities:search`,
  `localities:page` and `localities:pageSize` and the defaults `""`, 1 and 20.
  `StateRegistry` is the store as a class; `GetOrCreate`/`UseListState` are its specification.
- **Display formatting** (`useLocalityFormatting`): `formatLocalityName`, `formatCountryLabel`
  and `formatDisplayValue`, with JavaScript's `||` (only a missing value or the empty string is
  falsy), `String.prototype.trim` over the ECMAScript WhiteSpace and LineTerminator code points,
  and the decimal rendering of safe integers, which is proved to read back by a parser.

`useLocalities` never reads a search value and sends no filter parameter; nothing resets
`page` when the page size changes and nothing clamps `page` to `totalPages`. It creates its own
`page`/`pageSize` cells rather than using the shared list state. The model does the same.

Files: `wrappers.dfy` (Option), `api_types.dfy` (Country, Locality, ApiPage),
`decimal.dfy`, `js_string.dfy`, `locality_formatting.dfy`, `localities.dfy`, `debounce.dfy`,
`list_state.dfy`. Field `name_en` of the wire format is `nameEn` in the model.

## Model

| member | source | states |
|---|---|---|
| Localities.LocalitiesQuery.constructor | composables/useLocalities.ts:7-8 | a new query starts at page 1 with page size 20 |
| Localities.LocalitiesQuery.SetPage | composables/useLocalities.ts:7 | writing `page` changes only `page`; nothing resets or clamps it |
| Localities.LocalitiesQuery.SetPageSize | composables/useLocalities.ts:8 | writing `pageSize` changes only `pageSize`; `page` keeps its value |
| Localities.Offset | composables/useLocalities.ts:10 | page 1 starts at offset 0 |
| Localities.NextPageOffset | composables/useLocalities.ts:10 | moving from page p to p + 1 moves the offset forward by exactly `pageSize` |
| Localities.OffsetIsMultiple | composables/useLocalities.ts:10 | for page >= 1 and pageSize > 0 the offset is non-negative, a multiple of `pageSize`, and `offset / pageSize == page - 1` |
| Localities.Params | composables/useLocalities.ts:11-15 | the parameters are exactly `limit = pageSize`, `offset`, `expand = "country"`; the record has no filter field |
| Localities.InitialParams | composables/useLocalities.ts:7-15 | the initial state queries `{limit: 20, offset: 0, expand: "country"}` |
| Localities.Results | composables/useLocalities.ts:22 | the response's rows when data is present, the empty sequence otherwise |
| Localities.Total | composables/useLocalities.ts:23 | the response's `count` when data is present, 0 otherwise |
| Localities.LocalitiesQuery.CurrentOffset | composables/useLocalities.ts:10 | the offset computed from the cells is 0 on page 1 and, for page >= 1 and pageSize > 0, a non-negative multiple of `pageSize` with quotient `page - 1` |
| Localities.LocalitiesQuery.CurrentParams | composables/useLocalities.ts:11-15 | the params computed from the cells are `limit = pageSize`, the current offset and `expand = "country"` |
| Localities.LocalitiesQuery.CurrentTotalPages | composables/useLocalities.ts:23-24 | the page count from `pageSize` and the response is >= 1 for a non-zero size; for a positive size it is 1 when the total is not positive and otherwise the ceiling `(n - 1) * pageSize < total <= n * pageSize` |
| Localities.TotalPages | composables/useLocalities.ts:24 | for a non-zero page size the page count is a finite number >= 1 |
| Localities.TotalPagesFloor | composables/useLocalities.ts:24 | a non-positive total with a positive page size (or the reverse signs) gives exactly 1 page |
| Localities.CeilDivBounds | composables/useLocalities.ts:24 | the integer ceiling satisfies `(c - 1) * b < a <= c * b` for b > 0 |
| Localities.TotalPagesIsLeastCover | composables/useLocalities.ts:24 | for total > 0, `(n - 1) * pageSize < total <= n * pageSize`, and every page count that holds all rows is >= n |
| Localities.NoDataYet | composables/useLocalities.ts:22-24 | before data arrives: no rows, total 0, one page |
| Localities.ZeroPageSize | composables/useLocalities.ts:24 | page size 0 yields Infinity for a positive total, NaN for total 0, and 1 for a negative total |
| Debounce.Initial | composables/useDebouncedRef.ts:4 | the output starts equal to the source, nothing is pending, the invariant holds |
| Debounce.AfterChange | composables/useDebouncedRef.ts:7-15 | a source write never touches the output, the clock or the delay; a real change on a live cell replaces the pending timer with one for the new value due at now + delay; otherwise the slot is unchanged; the invariant is kept |
| Debounce.AfterAdvance | composables/useDebouncedRef.ts:12-14 | the clock moves to t and source, delay and disposal are kept; the output changes only when a pending timer is due; a due timer commits its value and empties the slot; otherwise output and slot stay |
| Debounce.AfterDispose | composables/useDebouncedRef.ts:17-21 | disposal empties the slot and leaves output, source, clock and delay alone |
| Debounce.RunKeepsConsistent | composables/useDebouncedRef.ts:5-21 | every event sequence keeps the invariant: at most one timer, holding the latest source value, due within `delay`; a live cell with no timer shows the source |
| Debounce.NoWriteAfterDispose | composables/useDebouncedRef.ts:17-21 | once disposed, no sequence of events writes the output or leaves a timer pending |
| Debounce.DisposeIsFinal | composables/useDebouncedRef.ts:17-21 | after disposal the output is the value it had at disposal, whatever follows |
| Debounce.Feed | composables/useDebouncedRef.ts:7-15 | feeding timed writes leaves the clock at the last write's time |
| Debounce.BurstCoalesces | composables/useDebouncedRef.ts:7-14 | a burst of changes, each less than `delay` after the previous, never reaches the output and leaves one timer for the last value due `delay` after the last write |
| Debounce.BurstSettles | composables/useDebouncedRef.ts:12-14 | after a burst the output is unchanged before `last + delay` and is the last value from then on |
| Debounce.DefaultBurstExample | composables/useDebouncedRef.ts:3-14 | writes at 0, 50, 100, 150 ms with the default 350 ms delay: output unchanged at 499 ms, the 150 ms value at 500 ms |
| Debounce.DisposeCancelsExample | composables/useDebouncedRef.ts:7-21 | a write at 0 ms and disposal at 100 ms: the output never changes afterwards |
| Debounce.DebouncedRef.constructor | composables/useDebouncedRef.ts:3-5 | the object's state is `Initial(source, delay, now)` |
| Debounce.DebouncedRef.WithDefaultDelay | composables/useDebouncedRef.ts:3 | the default delay is 350 ms |
| Debounce.DebouncedRef.SourceChanged | composables/useDebouncedRef.ts:7-15 | clears and reschedules the timer in place; the new state is `AfterChange` of the old one |
| Debounce.DebouncedRef.AdvanceTo | composables/useDebouncedRef.ts:12-14 | runs a due timer callback in place; the new state is `AfterAdvance` of the old one |
| Debounce.DebouncedRef.Dispose | composables/useDebouncedRef.ts:17-21 | clears the timer in place; the new state is `AfterDispose` of the old one |
| ListState.StateRegistry.constructor | composables/useLocalitiesListState.ts:1-4 | the app-wide store starts empty, so the first lookup of each key installs its default |
| ListState.UseListStateKeepsWellTyped | composables/useLocalitiesListState.ts:2-4 | on a well-typed store the call keeps it well typed: the search is text, the page and page size are numbers |
| ListState.GetOrCreate | composables/useLocalitiesListState.ts:2-4 | a present key is returned with the store unchanged; an absent key is installed with its initial value, which is returned |
| ListState.UseListState | composables/useLocalitiesListState.ts:1-11 | after the call the three keys are present, the result is their stored values, and no previously stored entry changed |
| ListState.Defaults | composables/useLocalitiesListState.ts:2-4 | an absent search is `""`, an absent page 1, an absent page size 20; present cells keep their values |
| ListState.FirstCall | composables/useLocalitiesListState.ts:2-4 | on an empty store the call yields `""`, 1 and 20 |
| ListState.KeysDistinct | composables/useLocalitiesListState.ts:2-4 | the three keys differ pairwise |
| ListState.SecondCallIsStable | composables/useLocalitiesListState.ts:2-4 | a second call leaves the store as the first call made it and returns the same values |
| ListState.WriteIsSeen | composables/useLocalitiesListState.ts:2-4 | a write to one cell after the first call is what later calls return, and the other two cells are unchanged |
| ListState.StateRegistry.UseState | composables/useLocalitiesListState.ts:2 | the in-place store lookup behaves as `GetOrCreate` |
| ListState.StateRegistry.UseLocalitiesListState | composables/useLocalitiesListState.ts:1-11 | the in-place call behaves as `UseListState` |
| ListState.StateRegistry.Write | composables/useLocalitiesListState.ts:2-10 | writing a returned cell with a value of its type replaces only that key's value and keeps the store well typed |
| JsString.IsWhiteSpace | composables/useLocalityFormatting.ts:40 | the characters `trim` strips are exactly the 25 ECMAScript WhiteSpace and LineTerminator code points |
| JsString.Truthy | composables/useLocalityFormatting.ts:13 | an optional string is truthy exactly when it is present and not empty |
| JsString.Or | composables/useLocalityFormatting.ts:13 | `a \|\| b` is `a` when `a` is truthy and `b` otherwise |
| JsString.Trim | composables/useLocalityFormatting.ts:40 | the trimmed string is no longer than the input and neither starts nor ends with white space |
| JsString.TrimIsInfix | composables/useLocalityFormatting.ts:40 | trimming removes only white space, at both ends, and keeps one contiguous piece |
| JsString.TrimEmptyIffAllWhiteSpace | composables/useLocalityFormatting.ts:40 | `trim().length === 0` exactly when every character is white space |
| Decimal.IntToString | composables/useLocalityFormatting.ts:21 | the rendering is non-empty, starts with `-` exactly for negative numbers, is otherwise digits, and has no leading zero except for 0 itself (never `-0`) |
| Decimal.IntRoundTrip | composables/useLocalityFormatting.ts:21 | the decimal rendering of any integer parses back to that integer |
| Decimal.IntToStringInjective | composables/useLocalityFormatting.ts:44 | two integers render the same exactly when they are equal |
| LocalityFormatting.FormatLocalityName | composables/useLocalityFormatting.ts:12-13 | `name_en` if non-empty, else `name` if non-empty, else `(Unnamed locality)`; never empty |
| LocalityFormatting.BlankNameIsKept | composables/useLocalityFormatting.ts:13 | a non-empty all-white-space `name_en` is returned as it is |
| LocalityFormatting.IdLabel | composables/useLocalityFormatting.ts:21 | an id label is `#` followed by the canonical decimal rendering of the id, which parses back to the id |
| LocalityFormatting.IdLabelInjective | composables/useLocalityFormatting.ts:21 | distinct ids give distinct labels |
| LocalityFormatting.FormatCountryLabel | composables/useLocalityFormatting.ts:15-25 | a missing country gives the em dash; a numeric id gives its `#` label, never the em dash; an object goes through the object branch; never empty |
| LocalityFormatting.FormatExpandedCountry | composables/useLocalityFormatting.ts:24 | `name_en` if non-empty, else `name` if non-empty, else the `#` label of the id; never empty |
| LocalityFormatting.FormatDisplayValue | composables/useLocalityFormatting.ts:35-45 | missing gives the em dash; a string is the em dash when all white space (empty included) and itself otherwise, surrounding white space kept; an integer gives its canonical decimal rendering, which parses back to it; never empty |
| LocalityFormatting.DisplayPlaceholderIff | composables/useLocalityFormatting.ts:36-44 | a string displays as the em dash exactly when it is blank or is itself an em dash |

## Left out

- The transport (`useFetch`, HTTP, `useRuntimeConfig`, building the endpoint URL) and the
  pass-through `pending`, `error` and `refresh` outputs of `useLocalities`: they are I/O and
  foreign calls. The fetched `data` is an input `Option<ApiPage>`.
- Vue reactivity (`ref`, `computed`, `watch`, `onScopeDispose`) and the real
  `setTimeout`/`clearTimeout`: replaced by fields, functions, methods and an explicit integer
  clock. The watcher's batching of several synchronous writes into one callback ("pre" flush) is
  not modelled; each write is seen by the watcher as it happens.
- ListState.StateRegistry.UseLocalitiesListState: the returned cells are the values read at the
  call, not live references; a cell is its key, and a holder sees later writes by reading the
  store under that key.
- ListState.StateRegistry.Write: writes a value of the cell's type only (`Fits`); TypeScript's
  typing of the cells is what rules out the other writes.
- Debounce.DebouncedRef.AdvanceTo: requires the clock not to go backwards (`now <= t`), a
  property of time rather than of the code.
- Debounce.DebouncedRef.constructor: the delay is a `nat` and the timer fires exactly `delay`
  milliseconds later; how browsers and Node treat a negative or fractional delay, or a delay above
  2^31 - 1 ms (which browsers wrap to a negative value counted as 0 and Node resets to 1 ms, so the
  timer fires almost at once), is not modelled.
- Localities.TotalPages: `total` and `pageSize` are integers and the division is exact; rounding
  of floating-point division for values beyond 2^53 is not modelled.
- Localities.Offset: `(page - 1) * pageSize` is exact integer arithmetic; JavaScript rounds
  products whose magnitude exceeds 2^53 (Number.MAX_SAFE_INTEGER), which is not modelled.
- Decimal.IntToString: magnitudes above 2^53 (Number.MAX_SAFE_INTEGER), where JavaScript rounds the
  value and prints rounded digits, and at least 10^21, where it prints an exponent, are rendered
  exactly. The same holds for LocalityFormatting.IdLabel and the integer branch of
  LocalityFormatting.FormatDisplayValue, which use it.
- LocalityFormatting.FormatDisplayValue: numeric inputs are integers; non-integer numbers,
  `NaN` and infinities (floating-point rendering) are not modelled.
- `formatCoordinate` and `getMapCoordinates`: they depend on `Number.isFinite` and
  floating-point to string conversion.
- `formatDateValue`: it depends on `Date.parse` and `toISOString`, foreign date handling.
- JavaScript strings are UTF-16; the model's strings are sequences of Unicode scalar values.
  Only whether `trim()` leaves an empty string matters here, and that does not depend on the
  encoding.
- `nuxt.config.ts` (framework configuration) and `types/api.ts` beyond the datatypes it declares.
  `useLocalities.ts` imports a `PaginatedResponse` type that `types/api.ts` does not declare;
  the response is modelled with the `ApiPage` shape.
