# Leerically song catalog: a Dafny model

Leerically is a lyrics site. Its logic outside the UI is small. It is
the string and sequence code around the song catalog:

- `sluggify` lower-cases a string. It then replaces every maximal run of
  characters outside `[a-z0-9-]` with one hyphen.
- `allSongs` is a literal list of song records. It is sorted by a comparator
  over (artist, album, title).
- The search page filters the catalog by a text test and a language test.
  The current revision splits the query into words, and every word must
  occur in some field. The older revision asks the whole query to occur in
  one field.
- The song route reads a slug off the URL path. It checks the slug against
  the slugs of the catalog. It then shows the not-found page or requests
  `/data/songs/<slug>.yml`.

This project models these pieces as pure Dafny functions over immutable
records and strings. It proves the properties the code relies on or
promises.

| file | module | what it holds |
|---|---|---|
| wrappers.dfy | `Wrappers` | `Option` |
| text.dfy | `Text` | `toLowerCase`, the `\s` class and `includes` |
| order.dfy | `Order` | `localeCompare` as lexicographic order |
| words.dfy | `Words` | `split(/\s+/).filter(Boolean)` and a character-scanning reference for it |
| slug.dfy | `Slug` | `sluggify` |
| catalog.dfy | `Catalog` | song records, the comparator, the sort, the two literal catalogs and the song slug |
| search.dfy | `Search` | the filters of both search revisions, result links and the initial query |
| route.dfy | `Route` | `getSongSlugFromUrl`, `getAllSlugs`, the not-found gate and the fetch path |

Some code appears twice in the repository. Each copy is modelled by one
definition:

- src/songsData.ts and src/app/ts/songsData.ts have the same `sluggify`
  and the same comparator. Their catalogs differ only in the `year` field:
  `LegacyRecords` has years and `AppRecords` has none.
- pages/search.tsx and src/tsx/Search.tsx have the same filter and the same
  link. Both are `Search.WordSearch` and `Search.ResultLink`.

Two library functions are abstracted:

- `toLowerCase` is exact on ASCII. Every other character goes through a
  `CaseMap` parameter (`char -> char`). Every property is proved for every
  such map, except `Search.LowerKeepsBlank` and
  `Search.BlankQueryKeepsAllFixed`, which assume the map fixes the
  whitespace characters, as JavaScript's `toLowerCase` does.
- `localeCompare` is plain lexicographic order on characters. Only the sign
  of its result is modelled.

## Model

| member | source | states |
|---|---|---|
| Text.Lower | src/songsData.ts:16 | lower-casing keeps the length and maps each character on its own |
| Text.LowerChar | src/songsData.ts:16 | definition: ASCII capitals map to lower case, other ASCII is kept, non-ASCII goes through the case map; properties in `Text.Lower` |
| Text.LowerAppend | src/songsData.ts:16 | lower-casing distributes over concatenation |
| Text.IsWhitespace | pages/search.tsx:27 | definition: the characters of the `\s` class; properties in `Words.WordsAreTokens` |
| Text.LowerCharAsciiWhitespace | src/songsData.ts:16 | an ASCII character is whitespace exactly when its lower case is |
| Text.Contains | pages/search.tsx:29 | definition: `includes`, a block of consecutive characters; properties in `Text.ContainsTransitive` |
| Text.ContainsTransitive | pages/search.tsx:28-30 | a block of a block of a string is a block of that string |
| Order.CompareStrings | src/songsData.ts:7 | the comparison is -1, 0 or 1, and it is 0 exactly when the strings are equal |
| Order.CompareStringsAntisymmetric | src/songsData.ts:7 | swapping the arguments flips the sign |
| Order.CompareStringsTransitive | src/songsData.ts:7 | "sorts no later than" is transitive |
| Words.Split | pages/search.tsx:27 | definition: `split(/\s+/)`; properties in `Words.WordsAreTokens` |
| Words.WordsOf | pages/search.tsx:27 | definition: `split(/\s+/).filter(Boolean)`; properties in `Words.WordsAreTokens` |
| Words.WordsAreTokens | pages/search.tsx:27 | split on whitespace runs, then dropping empty pieces, gives exactly the maximal whitespace-free blocks, as an independent character-scanning definition finds them |
| Words.WordsOccurInText | pages/search.tsx:27 | every query word is non-empty, holds no whitespace and occurs as a block of the query |
| Words.WordsAcrossGap | pages/search.tsx:27 | the words of `a`, one whitespace character, then `b` are the words of `a` followed by the words of `b` |
| Words.WordsEmptyIffBlank | pages/search.tsx:27 | a query has no words exactly when it is empty or all whitespace |
| Words.SingleWord | pages/search.tsx:27 | a non-empty string without whitespace is one word |
| Words.TwoWords | pages/search.tsx:27 | two words joined by a whitespace character split back into those two words |
| Slug.Sluggify | src/songsData.ts:14-18 | the output lies in `[a-z0-9-]` and is no longer than the lower-cased input, which in this model has the length of the input |
| Slug.CollapseRuns | src/songsData.ts:17 | definition: `replace(/[^a-z0-9-]+/g, "-")`; properties in `Slug.CollapseForeignRun` and `Slug.CollapseAroundSlugChar` |
| Slug.CollapseForeignRun | src/songsData.ts:17 | a non-empty run of characters outside `[a-z0-9-]` becomes exactly one hyphen |
| Slug.CollapseAroundSlugChar | src/songsData.ts:17 | a character of `[a-z0-9-]` is kept in place, and the text on either side is replaced independently |
| Slug.SluggifyAroundSlugChar | src/songsData.ts:14-18 | `sluggify` keeps an allowed character in place and slugs the two sides independently |
| Slug.SluggifyAfterSlugChar | src/songsData.ts:14-18 | when the first part lower-cases to end in an allowed character, the two parts are slugged independently |
| Slug.SluggifyJoinWords | src/songsData.ts:14-18 | two words in the slug alphabet around one other character are joined by a single hyphen; with an empty first word the hyphen leads |
| Slug.LowerKeepsSlug | src/songsData.ts:16 | lower-casing leaves a string in the slug alphabet unchanged |
| Slug.CollapseKeepsSlug | src/songsData.ts:17 | the replacement leaves a string in the slug alphabet unchanged |
| Slug.CollapseJoin | src/songsData.ts:17 | two strings of the slug alphabet around one other character are joined by a single hyphen, also when the first is empty |
| Slug.SluggifyFixedPoints | src/app/ts/songsData.ts:14-18 | `sluggify(s) == s` exactly when `s` is in the slug alphabet |
| Slug.SluggifyIdempotent | src/app/ts/songsData.ts:14-18 | `sluggify(sluggify(s)) == sluggify(s)` |
| Slug.SluggifyKeepsHyphens | src/songsData.ts:17 | hyphens are never merged: `"a -b"` gives `"a--b"`, and `""` gives `""` |
| Catalog.CompareSongs | src/songsData.ts:6-12 | the comparator returns the first non-zero comparison of artist, album and title, and 0 exactly when all three are equal |
| Catalog.CompareSongsAntisymmetric | src/app/ts/songsData.ts:6-12 | swapping the songs flips the sign |
| Catalog.CompareSongsTransitive | src/app/ts/songsData.ts:6-12 | the comparator is a transitive preorder |
| Catalog.Insert | src/songsData.ts:6 | inserting adds exactly the one song |
| Catalog.InsertKeepsSorted | src/songsData.ts:6 | inserting into an ordered list keeps it ordered |
| Catalog.SortSongs | src/songsData.ts:1-12 | the sort returns an ordered permutation of its input |
| Catalog.SortedPermutationUnique | src/songsData.ts:6-12 | with distinct keys there is only one ordered permutation, so any sorting algorithm gives the same catalog |
| Catalog.SortKeepsSortedInput | src/songsData.ts:6-12 | an ordered list comes out of the sort unchanged, keys repeated or not |
| Catalog.WithKey | src/songsData.ts:6-12 | definition: the songs of one key, in order; properties in `Catalog.SortStable` |
| Catalog.InsertWithKey | src/songsData.ts:6 | an inserted song goes ahead of every song with its key, and the others keep their order |
| Catalog.SortStable | src/songsData.ts:6-12 | the sort is stable: songs with the same key come out in their input order |
| Catalog.IncreasingFour | src/songsData.ts:1-5 | four songs in strictly increasing order are ordered and have distinct keys |
| Catalog.CatalogKeysIncrease | src/songsData.ts:2-5 | the four literal keys strictly increase under the comparator |
| Catalog.LegacyCatalog | src/songsData.ts:1-12 | definition: `allSongs`, the sorted records; properties in `Catalog.LegacyCatalogOrder` |
| Catalog.LegacyCatalogOrder | src/songsData.ts:1-12 | the sorted catalog lists the four records exactly as written |
| Catalog.AppCatalog | src/app/ts/songsData.ts:1-12 | definition: `allSongs` without years; properties in `Catalog.AppCatalogOrder` |
| Catalog.AppCatalogOrder | src/app/ts/songsData.ts:1-12 | the sorted catalog without years lists its four records exactly as written |
| Catalog.SongSlug | src/Song.tsx:12-14 | a song's slug lies in the slug alphabet, so it holds no `/` and no `.` |
| Search.FilterSongs | pages/search.tsx:21 | the filter keeps, in order, exactly the songs that pass, each as many times as it occurs in the input |
| Search.FilterCounts | pages/search.tsx:21 | each song occurs in the result as often as in the input when it passes the test, and not at all otherwise |
| Search.FilterMonotone | pages/search.tsx:21 | a stronger test keeps a subsequence of what a weaker one keeps |
| Search.FilterCongruent | pages/search.tsx:21 | tests that agree on every song give the same result |
| Search.FilterFuse | pages/search.tsx:21 | filtering by one test and then another is filtering once by both |
| Search.FilterKeepsAll | pages/search.tsx:21 | a test every song passes keeps the whole list |
| Search.WordSearch | pages/search.tsx:21-33 | the result is a subsequence of the catalog holding exactly the songs where every query word occurs in some lower-cased field and the language matches, each as many times as in the catalog |
| Search.MatchesWords | pages/search.tsx:22-30 | definition: every query word occurs in some lower-cased field; properties in `Words.WordsOccurInText` and `Search.WholeQueryImpliesWords` |
| Search.MatchesLanguage | pages/search.tsx:31 | definition: "All", or the song's own language; properties in `Search.LanguageNarrowsAll` |
| Search.CatalogSearch | pages/search.tsx:21-33 | over the sorted catalog the results are a subsequence of it and are themselves ordered |
| Search.SubsequenceKeepsSorted | pages/search.tsx:21 | a subsequence of an ordered list is ordered |
| Search.BlankQueryKeepsAll | src/tsx/Search.tsx:29-32 | with language "All", a query whose lower-cased form is empty or all whitespace keeps every song, in order |
| Search.LowerKeepsBlank | pages/search.tsx:27 | a blank query stays blank when lower-cased, for every case map that fixes the whitespace characters |
| Search.LowerBlankAscii | pages/search.tsx:27 | for an ASCII query, the lower-cased query is blank exactly when the query is |
| Search.BlankQueryKeepsAllFixed | src/tsx/Search.tsx:29-32 | with language "All", a blank query keeps every song, in order, for every case map that fixes the whitespace characters |
| Search.MoreWordsNarrow | pages/search.tsx:28-30 | when every word of one query is a word of another, the second query's results are a subsequence of the first's |
| Search.SameWordsSameResults | src/tsx/Search.tsx:30-32 | queries with the same set of words give the same results |
| Search.QueryWordsAcrossSpace | pages/search.tsx:27 | the words of `a + " " + b` are the words of `a` followed by those of `b` |
| Search.AddingWordNarrows | src/tsx/Search.tsx:30-32 | typing one more word never adds a result |
| Search.WordOrderIrrelevant | pages/search.tsx:28-30 | swapping two parts of the query, or repeating it, changes no result |
| Search.LanguageNarrowsAll | pages/search.tsx:31 | a specific language keeps exactly the songs of that language among the "All" results, in the same order |
| Search.WholeQuerySearch | src/Search.tsx:19-26 | the result is a subsequence holding exactly the songs whose lower-cased title, artist or album contains the whole lower-cased query and whose language matches, each as many times as in the catalog |
| Search.MatchesWholeQuery | src/Search.tsx:20-23 | definition: the whole lower-cased query occurs in the lower-cased title, artist or album; properties in `Search.WholeQueryImpliesWords` |
| Search.LocalRecords | src/Search.tsx:4-11 | definition: the older page's six records, in their written order; properties in `Search.LocalSearch` |
| Search.LocalSearch | src/Search.tsx:4-26 | the older page returns, in catalog order, exactly the records of its own six-song catalog that pass both tests, each once |
| Search.WholeQueryImpliesWords | src/Search.tsx:20-23 | a song the whole-query test accepts is accepted by the word test |
| Search.WholeQuerySearchRefines | src/Search.tsx:19-26 | the older search returns a subsequence of the current search's results |
| Search.TwoWordQuery | pages/search.tsx:27 | the query "a b" has exactly the words "a" and "b" |
| Search.WordSearchFindsMore | src/Search.tsx:20-23 | the refinement is strict: for "a b", a song with artist "a" and album "b" passes the word test but not the whole-query test |
| Search.EmptyWholeQueryKeepsAll | src/Search.tsx:20-24 | with language "All", the empty query keeps every song |
| Search.ResultLink | pages/search.tsx:62 | a result link is "/" followed by a slug with no further `/` |
| Search.RouterView | pages/search.tsx:13 | definition: before the router is ready the query is empty whatever the URL; once ready `q` is absent, one string, or an array when the key repeats; properties in `Search.InitialQueriesAgree` and `Search.ReadyQueriesAgree` |
| Search.RouterInitialQuery | pages/search.tsx:13-19 | definition: `q` when it is a single string, and empty otherwise, both initially and in the effect on `router.query.q`; properties in `Search.InitialQueriesAgree` and `Search.ReadyQueriesAgree` |
| Search.ParamsGet | src/tsx/Search.tsx:14 | definition: `get("q")` is the first value of `q`, or none; properties in `Search.InitialQueriesAgree` and `Search.ReadyQueriesAgree` |
| Search.ParamsInitialQuery | src/tsx/Search.tsx:14-21 | the query is the first `q` value when present, and empty otherwise, both initially and in the effect on `location.search` |
| Search.InitialQueriesAgree | pages/search.tsx:13 | on the first render of a directly loaded page, before the router is ready, the current revision starts from the empty query whatever the URL; the two revisions start alike exactly when the first `q` value is missing or empty |
| Search.ReadyQueriesAgree | pages/search.tsx:17-19 | once the router is ready, the two revisions hold the same query exactly when `q` is absent, given once, or repeated with an empty first value; a repeated `q` empties the router's query but `get` still returns the first value |
| Route.SlugFromPath | src/Song.tsx:7-9 | definition: `getSongSlugFromUrl`; properties in `Route.SlugFromPathShape` and `Route.SlugFromPathRoundTrip` |
| Route.SlugFromPathShape | src/Song.tsx:7-9 | the path is the slug with at most one `/` in front and at most one `.yml` behind; a path with neither is unchanged |
| Route.SlugFromPathStripsOnce | src/Song.tsx:8 | only one slash and one suffix go: `"//x"` gives `"/x"` and `"x.yml.yml"` gives `"x.yml"` |
| Route.SlugFromPathRoundTrip | src/Song.tsx:8 | `"/" + s + ".yml"` always gives back `s`; `"/" + s` gives back `s` exactly when `s` does not end in `.yml` |
| Route.AllSlugs | src/Song.tsx:11-15 | one slug per catalog song, in catalog order, each in the slug alphabet with no `/` and no `.` |
| Route.FetchPath | src/Song.tsx:18 | definition: `/data/songs/<slug>.yml`; properties in `Route.ResolvePage` and `Route.SongPageOpens` |
| Route.ResolvePage | src/Song.tsx:30-35 | the not-found page is shown exactly when the path's slug is not in the list of valid slugs, that is when no catalog song has it; otherwise the lyrics of that slug are fetched from `/data/songs/<slug>.yml` |
| Route.CatalogSlugResolves | src/Song.tsx:30-35 | a path whose slug is a catalog song's slug opens that song's lyrics |
| Route.SlugNotYml | src/Song.tsx:8 | a string without `.` never ends in `.yml` |
| Route.SongPathsResolve | src/Song.tsx:30-35 | every catalog song's path opens its lyrics, with or without `.yml` |
| Route.SongPageOpens | src/Song.tsx:17-18 | a song's path requests the lyrics file named by its slug |
| Route.TraversalIsNotFound | src/Song.tsx:33-35 | a path whose slug holds `/` or `.` always gets the not-found page, so no request leaves the songs directory |
| Route.SameKeySameSlug | src/Song.tsx:12-14 | songs with the same key have the same slug |
| Route.SeparatorsCollide | src/Song.tsx:12-14 | titles that differ only in the character between two words get the same slug, although the songs differ |
| Route.CatalogsShareKeys | src/app/ts/songsData.ts:1-5 | every record of the catalog without years has a record with the same key in the catalog with years |
| Route.LinkResolvesInTwin | pages/search.tsx:62 | a result link opens a lyrics page in any catalog with a song of the same key |
| Route.SearchLinksResolve | pages/search.tsx:62 | the link of every song in the search catalog opens a lyrics page under the song route |
| Route.AimerSlug | src/songsData.ts:2 | `sluggify("Aimer") == "aimer"` |
| Route.PennyRainSlug | src/songsData.ts:2 | `sluggify("Penny Rain") == "penny-rain"` |
| Route.RefRainSlug | src/songsData.ts:2 | `sluggify("Ref:rain") == "ref-rain"` |
| Route.FirstSongSlug | src/Song.tsx:12-14 | the first catalog song's slug is `aimer-penny-rain-ref-rain` |
| Route.FirstSongRoute | src/Song.tsx:11-15 | that slug heads the list of valid slugs |
| Route.FirstSongPage | src/Song.tsx:30-35 | the path `/aimer-penny-rain-ref-rain` opens `/data/songs/aimer-penny-rain-ref-rain.yml` |

## Left out

- React rendering, hooks and state are left out. This covers `useState`, `useEffect`, JSX, `Head` and `Link`. Only the values they compute are modelled.
- The render cycle of the query effects is left out. The effect at pages/search.tsx:17-19 sets the query to `Search.RouterInitialQuery` of the router's current view. The router's query is empty on the first render of the static export (next.config.ts:4), so this effect is what delivers `q` once the router is ready. The effect at src/tsx/Search.tsx:19-21 recomputes `Search.ParamsInitialQuery`.
- Search.RouterView: the router's readiness is a boolean parameter. When the router becomes ready after hydration is not modelled, and neither are client-side navigations, which reach the page with a ready router.
- `fetch` and the YAML parsing of the lyrics file are left out, because they are network I/O and a foreign parser. Only the request path is modelled (`Route.ResolvePage`). The error message for a failed request is not modelled.
- The random-song pick, the animations, the top bar, 404, About, sign-up and the other static pages are left out. They hold no catalog logic.
- pages/[slug].tsx is not part of this model.
- The Unicode part of `toLowerCase` is abstract. A non-ASCII character maps to one character through the `CaseMap` parameter, independently of its neighbours. Two behaviours of the real function are therefore not modelled. First, expansions such as U+0130 become two code units, so `sluggify("İ")` is `"i-"`, longer than its input. Second, context-dependent Final_Sigma: `"ΑΣ".toLowerCase()` is `"ας"`, but `"ΑΣΑ".toLowerCase()` is `"ασα"`. For the real function `Text.LowerAppend` therefore fails on `"ΑΣ" + "Α"`. The `sluggify` lemmas are unaffected, because σ and ς both lie outside `[a-z0-9-]` and become the same hyphen.
- `localeCompare` is plain lexicographic order on characters, not locale collation. All comparisons on the literal catalogs are decided at the first letter, where ASCII order agrees with collation.
- Strings are sequences of characters, not UTF-16 code units. Characters outside the Basic Multilingual Plane count once, not twice.
- src/ts/songsData.ts, which src/tsx/Search.tsx imports, is not part of this model. That page's filter is modelled over any catalog (`Search.WordSearch`). `Search.CatalogSearch` applies it to the catalog of src/app/ts/songsData.ts.
- Search.BlankQueryKeepsAll: its premise is that the lower-cased query is blank. For a non-ASCII whitespace character this depends on the abstract case map. `Search.LowerBlankAscii` shows that for an ASCII query the lower-cased query is blank exactly when the query is. `Search.BlankQueryKeepsAllFixed` starts from a blank query for any map that fixes whitespace.
- Slug injectivity is not promised by the code, and `Route.SeparatorsCollide` shows it fails.
- Route.SearchLinksResolve pairs the links of pages/search.tsx with the gate of src/Song.tsx. The two belong to different front ends. Both catalogs hold the same four keys, so the slugs agree.
