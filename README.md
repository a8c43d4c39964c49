# potrest core in Dafny

A model of the core of potrest, a Harry Potter character browser. The model
covers four pieces of its logic, with proofs of what each promises:

- **Filter store** (`app/character/filter.tsx`): the zustand store behind the
  filter screen. It holds a sort and four list fields (gender, house, blood
  status, species). Each list field is `null` (the "None" checkbox), `[]` (no
  constraint) or a list of values. Its actions toggle the fields. The store
  also computes the filter badge count and compiles its state into the query
  parameters of `GET /characters`.
  - Modelled as the class `Filter.FilterStore`, whose methods update its fields.
  - `Filter.UrlSearchParams` is the `URLSearchParams` that `_filterByList`
    appends to in a loop.
  - Pure functions (`SortToggled`, `Toggled`, `NoneToggled`, `FilterCount`,
    `CompileParams`) specify the methods.
  - Lemmas prove what the actions do and that the badge count equals the
    number of parameters.
  - A reader of the parameters (`DecodeParams`) recovers the state from them,
    which shows the compilation loses nothing but an empty sort string.
- **Slugs** (`lib/utils.ts`): `canBeSlugized`, `transliterate` and `slugize`.
  These are pure functions, one per step of the `slugize` chain:
  1. cut at `" ("`;
  2. transliterate;
  3. `toLowerCase`;
  4. replace runs of characters outside `[a-z0-9\-_]` by `-`;
  5. delete `-{2,}`, a leading `-` and a trailing `-`.

  Lemmas prove:
  - every slug is made of slug characters and is tidy (no leading or trailing
    `-`, no `--`);
  - a parenthetical suffix is ignored;
  - `slugize` is idempotent;
  - a run of two or more separators is deleted, not collapsed.

  Worked inputs (`"a - b"`, `"Harry Potter"`, `"école"`, `"École"`) are
  evaluated in `SlugExamples`.
- **Detail query** (`lib/query.ts`): the cache key `["character", slug]`, the
  query function that unwraps the `Single` envelope of `lib/api.ts`, and the
  `retry` predicate. The predicate is also run inside a model of the retry
  loop that calls it (`FetchCharacter`), to bound the number of requests.
- **Bookmark toggle** (`hooks/useToggleBookmark.ts`): one toggle is one atomic
  method, `Bookmark.ToggleBookmark`. It works on two classes:
  - `SavedTable`, the `saved_characters` table of `lib/schema.ts`: a map keyed
    by the primary key `characterSlug`;
  - `QueryClient`: the resolved detail entries, plus the log of invalidated
    key families.

  The method counts the rows of the slug. It deletes them if there are any.
  Otherwise it looks the character up through `ensureQueryData` and inserts a
  row with its name. In every case it then invalidates `["characters", "saved"]`.
  Pure functions specify the new table and cache. Lemmas prove:
  - presence flips;
  - other rows are untouched;
  - the primary key is kept;
  - two toggles restore presence, and `n` toggles follow parity.

The badge count follows the code (`app/character/filter.tsx:77-80`): a `null`
field counts 1 and `[]` counts 0. This reading is the consistent one: `null` is an active
"None" filter that emits one parameter, and `[]` emits none.
`Filter.ParamCountIsFilterCount` proves that the count equals the number of
parameters.

The files are `wrappers.dfy` (Option/Result), `query.dfy`, `slug.dfy`,
`slug_examples.dfy`, `filter.dfy` and `bookmark.dfy`.

## Model

| member | source | states |
|---|---|---|
| Query.CharacterKeyInjective | lib/query.ts:7 | the cache key `["character", slug]` determines the slug: equal keys iff equal slugs |
| Query.SavedInvalidationSparesDetail | hooks/useToggleBookmark.ts:30-31 | invalidating the `["characters", "saved"]` family never matches a character's detail key |
| Query.NotFoundNeverRetried | lib/query.ts:13-14 | a failure whose response status is 404 is never retried, whatever the failure count |
| Query.OtherFailuresRetriedBelowThree | lib/query.ts:13-14 | any other failure, including one without a response, is retried exactly when `failureCount < 3` |
| Query.RetryMonotone | lib/query.ts:13-14 | once a failure is not retried at count `n`, it is not retried at any larger count |
| Query.FetchCharacter | lib/query.ts:8-14 | running the query under the retry predicate: between 1 and 4 requests; every request before the last failed without a 404; a success is the `attributes` of the last response's `Single` envelope; a failure is the last response's error and is a 404 or the fourth failure |
| Query.NotFoundIsTerminal | lib/query.ts:13-14 | a 404 on the first request ends the query after exactly one request with that error |
| Query.TransientFailuresExhaustAfterFour | lib/query.ts:13-14 | when every request fails without a 404, the query sends exactly four requests and fails with the fourth error |
| Slug.CanBeSlugized | lib/utils.ts:1-3 | `canBeSlugized(v)` is true exactly when `" ("` occurs somewhere in `v` |
| Slug.FirstOpen | lib/utils.ts:8 | the cut point of `split(" (")[0]`: the first index where `" ("` starts, or the length when there is none |
| Slug.CanBeSlugizedIffHeadCuts | lib/utils.ts:1-8 | `canBeSlugized(v)` holds exactly when `slugize`'s first step cuts something off `v` |
| Slug.HeadOfOpen | lib/utils.ts:8 | on `a + " (" + b` with no `" ("` in `a`, the first step keeps exactly `a` |
| Slug.TransliterateSpec | lib/utils.ts:17-29 | `transliterate` keeps the length, leaves `\u0000-~` alone, maps each listed letter to its table entry and passes every other character through |
| Slug.TransliterationMapIsLowerCase | lib/utils.ts:20-27 | the table holds only lower-case Latin-1 letters (U+00E0 to U+00FF), each mapped to an ASCII letter |
| Slug.ToLowerCaseHasNoUpper | lib/utils.ts:9 | after `toLowerCase` no ASCII upper-case letter is left |
| Slug.SeparateGivesSlugChars | lib/utils.ts:10 | on lower-cased text, the `[^a-z0-9\-_]+` replacement leaves only `a-z`, `0-9`, `-` and `_` |
| Slug.SeparateKeepsSlugChars | lib/utils.ts:10 | text made only of slug characters passes that replacement unchanged |
| Slug.StripDashesIsDropRuns | lib/utils.ts:11-14 | the global replacement of `-{2,}\|^-\|-$`, as the regex engine scans, equals deleting every maximal run of `-` that is two or more long or touches either end |
| Slug.DropRunsKeepsSlugChars | lib/utils.ts:11-14 | deleting dash runs keeps the text within the slug alphabet |
| Slug.StripDashesIsTidy | lib/utils.ts:11-14 | after the final replacement there is no leading `-`, no trailing `-` and no `--` |
| Slug.DropRunsKeepsTidy | lib/utils.ts:11-14 | a tidy string passes the final replacement unchanged |
| Slug.LongRunVanishes | lib/utils.ts:12 | a run of two or more `-` between characters other than `-` is deleted outright, not collapsed |
| Slug.LoneDashStays | lib/utils.ts:12 | a lone `-` between characters other than `-` is kept |
| Slug.SlugizeIsSlug | lib/utils.ts:6-15 | every `slugize` result uses only `a-z`, `0-9`, `-` and `_`, and never starts or ends with `-` nor contains `--` |
| Slug.SlugizeIgnoresParenthetical | lib/utils.ts:8 | `slugize(a + " (" + b) == slugize(a)` when `a` contains no `" ("` |
| Slug.SlugizeFixesSlugs | lib/utils.ts:6-15 | a string already in slug shape is its own slug |
| Slug.SlugizeIdempotent | lib/utils.ts:6-15 | `slugize(slugize(s)) == slugize(s)` |
| SlugExamples.SlugizeDropsSpacedDash | lib/utils.ts:10-14 | `"a - b"` becomes `"ab"`: the three separators form one run that is deleted |
| SlugExamples.SlugizeTwoWords | lib/utils.ts:6-15 | two ASCII words joined by a space, whose lower-case forms are letters and digits, become those forms joined by one `-` |
| SlugExamples.SlugizeKeepsSingleDash | lib/utils.ts:6-15 | `"Harry Potter"` becomes `"harry-potter"` |
| SlugExamples.SlugizeTransliteratesLowerAccent | lib/utils.ts:17-29 | `"école"` becomes `"ecole"` through the table |
| SlugExamples.SlugizeDropsUpperAccent | lib/utils.ts:6-29 | `"École"` passes transliteration unchanged, because the table has only lower-case letters and runs before `toLowerCase`; its first letter becomes a leading separator that is deleted, giving `"cole"` |
| Filter.FilterStore.constructor | app/character/filter.tsx:34-43 | the store starts in `initialState` |
| Filter.FilterStore.Reset | app/character/filter.tsx:44 | `reset` restores `initialState` |
| Filter.InitialStateIsEmpty | app/character/filter.tsx:34-40 | in `initialState` the sort is `null`, every list field is `[]`, the badge count is 0 and no parameter is emitted |
| Filter.FilterStore.SetField | app/character/filter.tsx:47-58 | `set({[key]: v})` replaces the field `key` and keeps the sort and the other fields |
| Filter.FilterStore.ToggleSort | app/character/filter.tsx:45-46 | `toggleSort(s)` changes only the sort, to `SortToggled(sort, s)` |
| Filter.SortToggledSelectsOrClears | app/character/filter.tsx:45-46 | the new sort is `null` exactly when it already was `s`, and `s` otherwise |
| Filter.SortToggledTwice | app/character/filter.tsx:45-46 | toggling `s` twice from `null` or from `s` restores the original |
| Filter.SortToggledTwiceForgetsOther | app/character/filter.tsx:45-46 | toggling `s` twice from another sort `t` leaves `null`, not `t` |
| Filter.FilterStore.Toggle | app/character/filter.tsx:47-56 | `toggle(key, v)` changes only the field `key`, to `Toggled(state[key], v)` |
| Filter.RemoveAll | app/character/filter.tsx:53 | `filter((v) => v !== value)`: every occurrence of the value goes, every other value keeps its count |
| Filter.RemoveAllKeepsDistinct | app/character/filter.tsx:53 | filtering keeps a duplicate-free list duplicate-free |
| Filter.ToggledMembership | app/character/filter.tsx:47-56 | from `null` the field becomes exactly `[v]`; on a list, the membership of `v` flips and every other value keeps its membership |
| Filter.ToggledKeepsDistinct | app/character/filter.tsx:47-56 | `toggle` keeps a duplicate-free list duplicate-free |
| Filter.ToggledTwiceFromAbsent | app/character/filter.tsx:52-55 | adding an absent value and toggling it again restores the list exactly |
| Filter.ToggledTwiceFromPresent | app/character/filter.tsx:52-55 | removing a present value and toggling it again keeps the other values and puts the value back at the end |
| Filter.ToggledTwiceFromNull | app/character/filter.tsx:49-53 | from `null`, toggling a value twice leaves `[]`, not `null` |
| Filter.FilterStore.ToggleNone | app/character/filter.tsx:57-58 | `toggleNone(key)` changes only the field `key`, to `NoneToggled(state[key])` |
| Filter.NoneToggledTwice | app/character/filter.tsx:57-58 | `toggleNone` maps `null` to `[]` and any list to `null`; twice from `null` is the identity, twice from a list gives `[]` |
| Filter.FilterStore.FilterByList | app/character/filter.tsx:59-72 | `_filterByList` appends one `filter[<key>_null]=true` for `null`, one `filter[<key>_<pred>][]` per value in list order, and nothing for `[]` |
| Filter.FilterStore.GetSearchParams | app/character/filter.tsx:83-95 | the parameters are the sort (when truthy), then gender, house, blood_status and species; house uses the default predicate `in_any`, the others `cont_any` |
| Filter.FilterStore.GetFilterCount | app/character/filter.tsx:73-82 | the count is 1 for a truthy sort plus, per field, 1 for `null` and the list's length otherwise |
| Filter.FieldParamsCount | app/character/filter.tsx:59-82 | each field emits as many parameters as it adds to the count |
| Filter.ParamCountIsFilterCount | app/character/filter.tsx:59-95 | `getSearchParams` emits exactly `getFilterCount()` parameters |
| Filter.CountOfNullFields | app/character/filter.tsx:77-80 | with no sort, gender `[]` and the other three fields `null`, the count is 3 |
| Filter.CompileTwoSpecies | app/character/filter.tsx:83-95 | with only species `["Human", "Goblin"]` selected, the parameters are exactly two `filter[species_cont_any][]` entries, in that order |
| Filter.ParamNamesDistinct | app/character/filter.tsx:59-93 | the parameter names of different fields, of the `null` marker and of the values, and `sort`, never coincide |
| Filter.DecodeCompiledParams | app/character/filter.tsx:59-95 | reading the parameters back gives the state, with an empty sort string read as no sort; `null` and `[]` are told apart |
| Filter.CompileParamsInjective | app/character/filter.tsx:59-95 | two states that differ in more than an empty sort string compile to different parameters |
| Bookmark.MatchingIsKey | hooks/useToggleBookmark.ts:12-20 | under the primary key, `$count` with `eq(characterSlug, slug)` is 1 or 0, and the delete with the same filter removes exactly the row of `slug` |
| Bookmark.SavedTable.Count | hooks/useToggleBookmark.ts:12-15 | the count is the number of rows whose `characterSlug` is `slug`, non-zero exactly when a row for `slug` exists |
| Bookmark.SavedTable.Delete | hooks/useToggleBookmark.ts:18-20 | the delete keeps exactly the rows whose `characterSlug` differs from `slug` |
| Bookmark.SavedTable.Insert | hooks/useToggleBookmark.ts:26-28 | the insert adds the row `(slug, name, now)` unless the primary key is taken, in which case it fails and changes nothing |
| Bookmark.QueryClient.EnsureCharacter | hooks/useToggleBookmark.ts:23-25 | `ensureQueryData` answers from a resident entry, otherwise runs the query and keeps a successful result under `["character", slug]` |
| Bookmark.QueryClient.InvalidateQueries | hooks/useToggleBookmark.ts:30-31 | invalidation records the key family and leaves the entries in place |
| Bookmark.MutationFn | hooks/useToggleBookmark.ts:11-29 | a saved slug is deleted without a lookup; otherwise the lookup runs, and on success a row with its name is inserted; a failed lookup rejects with its error and changes no row |
| Bookmark.ToggleBookmark | hooks/useToggleBookmark.ts:10-32 | the table becomes `ToggledRows(...)`, the primary key is kept, `["characters", "saved"]` is invalidated once whether the mutation succeeds or fails, and it fails exactly when an unsaved character's lookup failed |
| Bookmark.ToggleDeletesSavedRow | hooks/useToggleBookmark.ts:17-21 | a saved slug loses exactly its row and nothing is inserted |
| Bookmark.ToggleInsertsOneRow | hooks/useToggleBookmark.ts:23-28 | an unsaved slug gains exactly one row, with `characterSlug = slug` and the looked-up `name` |
| Bookmark.ToggleFailedLookupKeepsRows | hooks/useToggleBookmark.ts:23-28 | if the lookup fails, the table is unchanged |
| Bookmark.ToggleOfSavedIgnoresLookup | hooks/useToggleBookmark.ts:17-21 | for a saved slug the lookup's outcome does not matter |
| Bookmark.ToggleSparesOtherRows | hooks/useToggleBookmark.ts:12-20 | rows of other slugs are neither removed, added nor changed |
| Bookmark.ToggleKeepsPrimaryKey | lib/schema.ts:31-33 | the table keeps at most one row per slug, each stored under its own `characterSlug` |
| Bookmark.ToggleTwiceRestoresPresence | hooks/useToggleBookmark.ts:12-28 | two toggles restore whether the slug is saved (when the needed lookup succeeds); from unsaved the table is restored exactly |
| Bookmark.ToggleParity | hooks/useToggleBookmark.ts:12-28 | after `n` toggles with successful lookups, the slug is saved exactly when it was saved and `n` is even, or was not and `n` is odd; other slugs keep their presence |
| Bookmark.LookupUsesResidentEntry | hooks/useToggleBookmark.ts:23-25 | a resident detail entry answers the lookup with no request and no change to the cache |
| Bookmark.LookupIsRemembered | hooks/useToggleBookmark.ts:23-25 | after a successful lookup, later lookups of the slug give the same character whatever the network does |
| Bookmark.FetchedNameIsAttribute | lib/query.ts:8-14 | a fetched character is the `attributes` of one of the first four responses |

## Left out

- Rendering (the filter screen's components and styles) is UI and not modelled.
- Startup wiring, migrations, history grouping and pagination, the search suggestion query and the swipe animations are not part of this model.
- Concurrency is not modelled:
  - react-query's deduplication of in-flight requests, `signal` cancellation and background refetch;
  - the read-then-write race between the count and the insert of the toggle.
  - A toggle is one atomic step.
- The network is the parameter `responses` (what the k-th request returns). The database clock (`unixepoch()`) is the parameter `now`.
- Query.FetchCharacter: it models the retry loop only as far as `retry` steers it. Retry delays, and the retryer pausing while offline, are library behaviour and not modelled.
- Bookmark.QueryClient.EnsureCharacter: the cache never evicts entries (garbage collection after `gcTime` is not modelled). It also does not model staleness, so a resident entry is always used. It holds only detail entries.
- Bookmark.QueryClient.InvalidateQueries: only records the invalidated family. The refetch of active queries that it triggers is not modelled.
- Bookmark.ToggleBookmark: the store's statements (`$count`, `delete`, `insert`) are modelled as never failing. A rejected statement would fail the mutation, and `onSettled` would still invalidate `["characters", "saved"]`; that store-failure path is not modelled. So "fails exactly when an unsaved character's lookup failed" holds only for a store that does not fail.
- Bookmark.SavedTable.Insert: the insert is modelled at the table's level. drizzle's SQL and SQLite's error objects are not modelled. A key conflict is a `false` result.
- Slug.ToLowerCase: lower-cases ASCII letters exactly and spells out the two non-ASCII characters whose lower-case form contains ASCII letters: U+212A becomes `k`, and U+0130 becomes `i` followed by U+0307. It keeps every other non-ASCII character. Their real lower-case forms are non-ASCII too, and every later step treats all non-ASCII characters alike.
- Strings are sequences of code points. UTF-16 surrogate pairs, which JavaScript's regular expressions see as two units, are not modelled.
- Query.CharacterAttributes: keeps only `slug` and `name`. The descriptive fields of `lib/api.ts` are never read by the core.
