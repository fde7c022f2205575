/** The catalog search page: a text filter over artist, album and title,
    combined with a language filter, keeping the catalog's order. Two
    revisions exist: the current one splits the query into words and asks
    each word to occur in some field; the older one asks the whole query to
    occur in one field. */
module Search {
  import opened Wrappers
  import opened Text
  import opened Words
  import opened Slug
  import opened Catalog

  /** The pill that switches the language filter off; the other pills are
      "English", "Chinese" and "Japanese". */
  const AllLanguages: string := "All"

  /** `a` is `b` with some elements left out, order kept. */
  predicate IsSubsequence<T(==)>(a: seq<T>, b: seq<T>)
    decreases |b|
  {
    if |a| == 0 then true
    else if |b| == 0 then false
    else (a[0] == b[0] && IsSubsequence(a[1..], b[1..])) || IsSubsequence(a, b[1..])
  }

  /** Array.prototype.filter: the songs satisfying `keep`, in their order,
      each kept as often as it occurs (`FilterCounts` states the counts of
      every song). */
  function FilterSongs(songs: seq<Song>, keep: Song -> bool): (r: seq<Song>)
    ensures IsSubsequence(r, songs)
    ensures forall s :: s in r <==> s in songs && keep(s)
    ensures forall s | s in songs && keep(s) :: multiset(r)[s] == multiset(songs)[s]
    decreases |songs|
  {
    if |songs| == 0 then []
    else
      var rest := FilterSongs(songs[1..], keep);
      assert songs == [songs[0]] + songs[1..];
      assert forall s :: s in songs <==> s == songs[0] || s in songs[1..];
      if keep(songs[0]) then [songs[0]] + rest else rest
  }

  /** Every song occurs in the result as often as in the input when it
      passes, and not at all otherwise. */
  lemma FilterCounts(songs: seq<Song>, keep: Song -> bool)
    ensures forall s :: multiset(FilterSongs(songs, keep))[s] == if keep(s) then multiset(songs)[s] else 0
  {
  }

  /** A stronger filter keeps a subsequence of what a weaker one keeps. */
  lemma {:induction false} FilterMonotone(songs: seq<Song>, p: Song -> bool, q: Song -> bool)
    requires forall s | s in songs :: p(s) ==> q(s)
    ensures IsSubsequence(FilterSongs(songs, p), FilterSongs(songs, q))
    decreases |songs|
  {
    if |songs| > 0 {
      assert forall s | s in songs[1..] :: s in songs;
      FilterMonotone(songs[1..], p, q);
      var a, b := FilterSongs(songs[1..], p), FilterSongs(songs[1..], q);
      if p(songs[0]) {
        assert ([songs[0]] + a)[1..] == a && ([songs[0]] + b)[1..] == b;
      } else if q(songs[0]) {
        SubsequenceOfTail(a, [songs[0]] + b);
      }
    }
  }

  lemma SubsequenceOfTail<T>(a: seq<T>, b: seq<T>)
    requires |b| > 0 && IsSubsequence(a, b[1..])
    ensures IsSubsequence(a, b)
  {
  }

  /** Filters that agree on every song give the same result. */
  lemma {:induction false} FilterCongruent(songs: seq<Song>, p: Song -> bool, q: Song -> bool)
    requires forall s | s in songs :: p(s) == q(s)
    ensures FilterSongs(songs, p) == FilterSongs(songs, q)
    decreases |songs|
  {
    if |songs| > 0 {
      assert forall s | s in songs[1..] :: s in songs;
      FilterCongruent(songs[1..], p, q);
    }
  }

  /** Filtering twice is filtering once by the conjunction. */
  lemma {:induction false} FilterFuse(songs: seq<Song>, p: Song -> bool, q: Song -> bool)
    ensures FilterSongs(FilterSongs(songs, p), q) == FilterSongs(songs, s => p(s) && q(s))
    decreases |songs|
  {
    if |songs| > 0 {
      FilterFuse(songs[1..], p, q);
      var rest := FilterSongs(songs[1..], p);
      if p(songs[0]) {
        assert ([songs[0]] + rest)[1..] == rest;
      }
    }
  }

  /** A filter every song passes returns the list unchanged. */
  lemma {:induction false} FilterKeepsAll(songs: seq<Song>, p: Song -> bool)
    requires forall s | s in songs :: p(s)
    ensures FilterSongs(songs, p) == songs
    decreases |songs|
  {
    if |songs| > 0 {
      assert forall s | s in songs[1..] :: s in songs;
      FilterKeepsAll(songs[1..], p);
      assert songs == [songs[0]] + songs[1..];
    }
  }

  /** The query words: the lower-cased query split on whitespace runs,
      empty pieces dropped. */
  function QueryWords(query: string, other: CaseMap): seq<string> {
    WordsOf(Lower(query, other))
  }

  /** The word occurs in the lower-cased artist, album or title. */
  predicate InSomeField(song: Song, word: string, other: CaseMap) {
    || Contains(Lower(song.artist, other), word)
    || Contains(Lower(song.album, other), word)
    || Contains(Lower(song.title, other), word)
  }

  /** The text test of the current revision: every query word occurs in
      some field. A query with no words passes every song. */
  predicate MatchesWords(song: Song, query: string, other: CaseMap) {
    forall w | w in QueryWords(query, other) :: InSomeField(song, w, other)
  }

  /** "All" keeps every song; any other value keeps the songs of exactly
      that language. */
  predicate MatchesLanguage(song: Song, language: string) {
    language == AllLanguages || song.language == language
  }

  /** `filteredSongs` of the current search page. */
  function WordSearch(songs: seq<Song>, query: string, language: string, other: CaseMap): (r: seq<Song>)
    ensures IsSubsequence(r, songs)
    ensures forall s :: s in r <==> s in songs && MatchesWords(s, query, other) && MatchesLanguage(s, language)
    ensures forall s | s in songs && MatchesWords(s, query, other) && MatchesLanguage(s, language) :: multiset(r)[s] == multiset(songs)[s]
  {
    FilterSongs(songs, s => MatchesWords(s, query, other) && MatchesLanguage(s, language))
  }

  /** The text test of the older revision: the whole lower-cased query,
      unsplit, occurs in the lower-cased title, artist or album. */
  predicate MatchesWholeQuery(song: Song, query: string, other: CaseMap) {
    var q := Lower(query, other);
    || Contains(Lower(song.title, other), q)
    || Contains(Lower(song.artist, other), q)
    || Contains(Lower(song.album, other), q)
  }

  /** `filteredSongs` of the older search page. */
  function WholeQuerySearch(songs: seq<Song>, query: string, language: string, other: CaseMap): (r: seq<Song>)
    ensures IsSubsequence(r, songs)
    ensures forall s :: s in r <==> s in songs && MatchesWholeQuery(s, query, other) && MatchesLanguage(s, language)
    ensures forall s | s in songs && MatchesWholeQuery(s, query, other) && MatchesLanguage(s, language) :: multiset(r)[s] == multiset(songs)[s]
  {
    FilterSongs(songs, s => MatchesWholeQuery(s, query, other) && MatchesLanguage(s, language))
  }

  /** The older page's own catalog: six records, not sorted. */
  const LocalRecords: seq<Song> := [
    Song("Aimer", "Penny Rain", "Ref:rain", Some(2019), "Japanese"),
    Song("BABYMETAL", "METAL RESISTANCE", "No Rain No Rainbow", Some(2016), "Japanese"),
    Song("THE ORAL CIGARETTES", "FIXION", "Amy", Some(2016), "Japanese"),
    Song("THE ORAL CIGARETTES", "BLACK MEMORY", "Flower", Some(2017), "Japanese"),
    Song("Artist A", "Album A", "Some English Song", Some(2020), "English"),
    Song("Artist B", "Album B", "Chinese Melody", Some(2021), "Chinese")
  ]

  /** The older page's search, over its own catalog. */
  function LocalSearch(query: string, language: string, other: CaseMap): (r: seq<Song>)
    ensures IsSubsequence(r, LocalRecords)
    ensures forall s :: s in r <==> s in LocalRecords && MatchesWholeQuery(s, query, other) && MatchesLanguage(s, language)
    ensures forall s | s in LocalRecords && MatchesWholeQuery(s, query, other) && MatchesLanguage(s, language) :: multiset(r)[s] == multiset(LocalRecords)[s]
  {
    WholeQuerySearch(LocalRecords, query, language, other)
  }

  /** A subsequence of an ordered list is ordered. */
  lemma {:induction false} SubsequenceKeepsSorted(a: seq<Song>, b: seq<Song>)
    requires IsSubsequence(a, b) && Sorted(b)
    ensures Sorted(a)
    decreases |b|
  {
    if |a| > 0 && |b| > 0 {
      SortedTail(b);
      if a[0] == b[0] && IsSubsequence(a[1..], b[1..]) {
        SubsequenceKeepsSorted(a[1..], b[1..]);
        SubsequenceMembers(a[1..], b[1..]);
        forall j | 0 < j < |a| ensures CompareSongs(a[0], a[j]) <= 0 {
          assert a[j] == a[1..][j - 1];
          assert a[j] in b[1..];
          assert b == [b[0]] + b[1..];
          SortedHeadFirst(b, a[j]);
        }
      } else {
        SubsequenceKeepsSorted(a, b[1..]);
      }
    }
  }

  lemma {:induction false} SubsequenceMembers<T>(a: seq<T>, b: seq<T>)
    requires IsSubsequence(a, b)
    ensures forall x | x in a :: x in b
    decreases |b|
  {
    if |a| > 0 && |b| > 0 {
      if a[0] == b[0] && IsSubsequence(a[1..], b[1..]) {
        SubsequenceMembers(a[1..], b[1..]);
        assert forall x | x in a :: x == a[0] || x in a[1..];
      } else {
        SubsequenceMembers(a, b[1..]);
      }
    }
  }

  /** The current search page's results: a subsequence of the sorted
      catalog, hence themselves ordered by artist, album and title. */
  function CatalogSearch(query: string, language: string, other: CaseMap): (r: seq<Song>)
    ensures IsSubsequence(r, AppCatalog)
    ensures Sorted(r)
  {
    var r := WordSearch(AppCatalog, query, language, other);
    SubsequenceKeepsSorted(r, AppCatalog);
    r
  }

  /** A query whose lower-cased form is blank has no words, so with
      language "All" every song is kept, in order. */
  lemma BlankQueryKeepsAll(songs: seq<Song>, query: string, other: CaseMap)
    requires IsBlank(Lower(query, other))
    ensures WordSearch(songs, query, AllLanguages, other) == songs
  {
    WordsEmptyIffBlank(Lower(query, other));
    FilterKeepsAll(songs, s => MatchesWords(s, query, other) && MatchesLanguage(s, AllLanguages));
  }

  /** Lower-casing keeps a blank query blank when the case map fixes the
      non-ASCII whitespace characters. */
  lemma LowerKeepsBlank(query: string, other: CaseMap)
    requires IsBlank(query)
    requires forall c :: IsWhitespace(c) ==> other(c) == c
    ensures IsBlank(Lower(query, other))
  {
    forall i | 0 <= i < |query| ensures IsWhitespace(Lower(query, other)[i]) {
      assert IsWhitespace(query[i]);
    }
  }

  /** For a query of ASCII characters, the lower-cased query is blank
      exactly when the query is, whatever the case map. */
  lemma LowerBlankAscii(query: string, other: CaseMap)
    requires forall i :: 0 <= i < |query| ==> query[i] as int < 128
    ensures IsBlank(Lower(query, other)) <==> IsBlank(query)
  {
    forall i | 0 <= i < |query|
      ensures IsWhitespace(Lower(query, other)[i]) <==> IsWhitespace(query[i])
    {
      LowerCharAsciiWhitespace(query[i], other);
    }
  }

  /** A blank query keeps every song with language "All", for every case
      map that fixes the whitespace characters. */
  lemma BlankQueryKeepsAllFixed(songs: seq<Song>, query: string, other: CaseMap)
    requires IsBlank(query)
    requires forall c :: IsWhitespace(c) ==> other(c) == c
    ensures WordSearch(songs, query, AllLanguages, other) == songs
  {
    LowerKeepsBlank(query, other);
    BlankQueryKeepsAll(songs, query, other);
  }

  /** When every word of `q1` is also a word of `q2`, searching for `q2`
      keeps a subsequence of what searching for `q1` keeps. */
  lemma MoreWordsNarrow(songs: seq<Song>, q1: string, q2: string, language: string, other: CaseMap)
    requires forall w | w in QueryWords(q1, other) :: w in QueryWords(q2, other)
    ensures IsSubsequence(WordSearch(songs, q2, language, other), WordSearch(songs, q1, language, other))
  {
    FilterMonotone(songs,
      s => MatchesWords(s, q2, other) && MatchesLanguage(s, language),
      s => MatchesWords(s, q1, other) && MatchesLanguage(s, language));
  }

  /** Queries with the same set of words give the same results, whatever
      the order or repetition of the words. */
  lemma SameWordsSameResults(songs: seq<Song>, q1: string, q2: string, language: string, other: CaseMap)
    requires forall w :: w in QueryWords(q1, other) <==> w in QueryWords(q2, other)
    ensures WordSearch(songs, q1, language, other) == WordSearch(songs, q2, language, other)
  {
    FilterCongruent(songs,
      s => MatchesWords(s, q1, other) && MatchesLanguage(s, language),
      s => MatchesWords(s, q2, other) && MatchesLanguage(s, language));
  }

  lemma QueryWordsAcrossSpace(a: string, b: string, other: CaseMap)
    ensures QueryWords(a + " " + b, other) == QueryWords(a, other) + QueryWords(b, other)
  {
    LowerAppend(a + " ", b, other);
    LowerAppend(a, " ", other);
    assert Lower(" ", other) == [' '];
    WordsAcrossGap(Lower(a, other), ' ', Lower(b, other));
  }

  /** Typing one more word, separated by a space, never adds a result. */
  lemma AddingWordNarrows(songs: seq<Song>, query: string, word: string, language: string, other: CaseMap)
    ensures IsSubsequence(WordSearch(songs, query + " " + word, language, other), WordSearch(songs, query, language, other))
  {
    QueryWordsAcrossSpace(query, word, other);
    MoreWordsNarrow(songs, query, query + " " + word, language, other);
  }

  /** Swapping two parts of the query, or repeating the query, changes
      nothing. */
  lemma WordOrderIrrelevant(songs: seq<Song>, a: string, b: string, language: string, other: CaseMap)
    ensures WordSearch(songs, a + " " + b, language, other) == WordSearch(songs, b + " " + a, language, other)
    ensures WordSearch(songs, a + " " + a, language, other) == WordSearch(songs, a, language, other)
  {
    QueryWordsAcrossSpace(a, b, other);
    QueryWordsAcrossSpace(b, a, other);
    QueryWordsAcrossSpace(a, a, other);
    SameWordsSameResults(songs, a + " " + b, b + " " + a, language, other);
    SameWordsSameResults(songs, a + " " + a, a, language, other);
  }

  /** A specific language keeps exactly the songs of that language among
      the "All" results, in the same order. */
  lemma LanguageNarrowsAll(songs: seq<Song>, query: string, language: string, other: CaseMap)
    requires language != AllLanguages
    ensures WordSearch(songs, query, language, other)
         == FilterSongs(WordSearch(songs, query, AllLanguages, other), (s: Song) => s.language == language)
  {
    var all := s => MatchesWords(s, query, other) && MatchesLanguage(s, AllLanguages);
    var lang := (s: Song) => s.language == language;
    FilterFuse(songs, all, lang);
    FilterCongruent(songs,
      s => MatchesWords(s, query, other) && MatchesLanguage(s, language),
      s => all(s) && lang(s));
  }

  /** Refinement: a song the older whole-query test accepts is accepted by
      the word test, because every word is a block of the query. */
  lemma WholeQueryImpliesWords(song: Song, query: string, other: CaseMap)
    requires MatchesWholeQuery(song, query, other)
    ensures MatchesWords(song, query, other)
  {
    var q := Lower(query, other);
    WordsOccurInText(q);
    forall w | w in QueryWords(query, other) ensures InSomeField(song, w, other) {
      if Contains(Lower(song.title, other), q) {
        ContainsTransitive(Lower(song.title, other), q, w);
      } else if Contains(Lower(song.artist, other), q) {
        ContainsTransitive(Lower(song.artist, other), q, w);
      } else {
        ContainsTransitive(Lower(song.album, other), q, w);
      }
    }
  }

  /** Over the same catalog, the older search returns a subsequence of the
      current search's results. */
  lemma WholeQuerySearchRefines(songs: seq<Song>, query: string, language: string, other: CaseMap)
    ensures IsSubsequence(WholeQuerySearch(songs, query, language, other), WordSearch(songs, query, language, other))
  {
    forall s | s in songs
      ensures MatchesWholeQuery(s, query, other) && MatchesLanguage(s, language)
          ==> MatchesWords(s, query, other) && MatchesLanguage(s, language)
    {
      if MatchesWholeQuery(s, query, other) { WholeQueryImpliesWords(s, query, other); }
    }
    FilterMonotone(songs,
      s => MatchesWholeQuery(s, query, other) && MatchesLanguage(s, language),
      s => MatchesWords(s, query, other) && MatchesLanguage(s, language));
  }

  /** The query "a b" has the two words "a" and "b". */
  lemma TwoWordQuery(other: CaseMap)
    ensures QueryWords("a b", other) == ["a", "b"]
  {
    assert "a b" == "a" + [' '] + "b";
    LowerKeepsLowerAscii("a b", other);
    TwoWords("a", ' ', "b");
  }

  /** The refinement is strict: "a b" finds a song with artist "a" and
      album "b" word by word, but no field holds the whole query. */
  lemma WordSearchFindsMore(other: CaseMap)
    ensures var song := Song("a", "b", "c", None, "English");
      MatchesWords(song, "a b", other) && !MatchesWholeQuery(song, "a b", other)
  {
    var song := Song("a", "b", "c", None, "English");
    assert MatchesWords(song, "a b", other) by {
      LowerKeepsLowerAscii("a", other);
      LowerKeepsLowerAscii("b", other);
      TwoWordQuery(other);
      assert Contains("a", "a") && Contains("b", "b");
    }
    assert !MatchesWholeQuery(song, "a b", other) by {
      LowerKeepsLowerAscii("a", other);
      LowerKeepsLowerAscii("b", other);
      LowerKeepsLowerAscii("c", other);
      LowerKeepsLowerAscii("a b", other);
      assert !Contains("a", "a b") && !Contains("b", "a b") && !Contains("c", "a b");
    }
  }

  /** The empty query passes the older test for every song. */
  lemma EmptyWholeQueryKeepsAll(songs: seq<Song>, other: CaseMap)
    ensures WholeQuerySearch(songs, "", AllLanguages, other) == songs
  {
    forall s | s in songs ensures MatchesWholeQuery(s, "", other) {
      ContainsParts("", Lower(s.title, other));
    }
    FilterKeepsAll(songs, s => MatchesWholeQuery(s, "", other) && MatchesLanguage(s, AllLanguages));
  }

  /** The link of a result row: "/" followed by the song's slug. */
  function ResultLink(song: Song, other: CaseMap): (r: string)
    ensures |r| > 0 && r[0] == '/'
    ensures IsSlug(r[1..]) && '/' !in r[1..]
  {
    "/" + SongSlug(song, other)
  }

  /** How the route's `q` parameter arrives in the page router: absent, a
      single string, or repeated. */
  datatype QueryValue = Missing | One(value: string) | Many(values: seq<string>)

  /** The page router's view of the `q` values a URL carries, in order.
      The site is a static export: until the router is ready, on the first
      render of a page loaded directly, its query is empty whatever the
      URL. Once it is ready, a repeated key arrives as an array. */
  function RouterView(values: seq<string>, ready: bool): QueryValue {
    if !ready || |values| == 0 then Missing
    else if |values| == 1 then One(values[0])
    else Many(values)
  }

  /** `URLSearchParams.get("q")`: the first value, or `null`. */
  function ParamsGet(values: seq<string>): Option<string> {
    if |values| == 0 then None else Some(values[0])
  }

  /** The current page's query for a router view: `q` when it is a single
      string, otherwise empty. The state starts from it, and the effect on
      `router.query.q` sets the state to it again whenever the view
      changes, in particular when the router becomes ready. */
  function RouterInitialQuery(q: QueryValue): string {
    match q
    case One(v) => v
    case _ => ""
  }

  /** The other revision's query, `get("q") || ""`, both initially and in
      its effect on `location.search`: `||` also replaces an empty value by
      the empty string, which changes nothing. */
  function ParamsInitialQuery(q: Option<string>): (r: string)
    ensures q.Some? ==> r == q.value
    ensures q.None? ==> r == ""
  {
    match q
    case Some(v) => if v == "" then "" else v
    case None => ""
  }

  /** On the first render of a directly loaded page the current revision
      starts from the empty query whatever the URL, so the two revisions
      start alike exactly when the first `q` value is missing or empty. */
  lemma InitialQueriesAgree(values: seq<string>)
    ensures RouterInitialQuery(RouterView(values, false)) == ""
    ensures RouterInitialQuery(RouterView(values, false)) == ParamsInitialQuery(ParamsGet(values))
        <==> |values| == 0 || values[0] == ""
  {
  }

  /** Once the router is ready, the two revisions hold the same query
      exactly when `q` is absent, given once, or repeated with an empty
      first value: a repeated `q` empties the router's query but not the
      first value `get` returns. */
  lemma ReadyQueriesAgree(values: seq<string>)
    ensures RouterInitialQuery(RouterView(values, true)) == ParamsInitialQuery(ParamsGet(values))
        <==> |values| <= 1 || values[0] == ""
    ensures |values| <= 1 ==> ParamsInitialQuery(ParamsGet(values)) == if |values| == 0 then "" else values[0]
  {
  }
}
