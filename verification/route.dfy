/** The song route: the slug is read off the URL path, checked against the
    slugs of the catalog, and either the not-found page is shown or the
    lyrics file for that slug is requested. */
module Route {
  import opened Wrappers
  import opened Text
  import opened Slug
  import opened Catalog
  import opened Search

  predicate StartsWithSlash(s: string) {
    |s| > 0 && s[0] == '/'
  }

  predicate EndsWithYml(s: string) {
    |s| >= 4 && s[|s| - 4..] == ".yml"
  }

  /** `replace(/^\//, '')`: at most one leading slash goes. */
  function StripLeadingSlash(path: string): string {
    if StartsWithSlash(path) then path[1..] else path
  }

  /** `replace(/\.yml$/, '')`: at most one trailing ".yml" goes. */
  function StripYml(s: string): string {
    if EndsWithYml(s) then s[..|s| - 4] else s
  }

  /** `getSongSlugFromUrl`. */
  function SlugFromPath(path: string): string {
    StripYml(StripLeadingSlash(path))
  }

  /** The path is the slug with at most one '/' in front and at most one
      ".yml" behind; a path with neither is returned unchanged. */
  lemma SlugFromPathShape(path: string)
    ensures var lead := if StartsWithSlash(path) then "/" else "";
      var r := SlugFromPath(path);
      path == lead + r || path == lead + r + ".yml"
    ensures !StartsWithSlash(path) && !EndsWithYml(path) ==> SlugFromPath(path) == path
  {
    var body := StripLeadingSlash(path);
    if StartsWithSlash(path) {
      assert path == "/" + body;
    }
    if EndsWithYml(body) {
      assert body == body[..|body| - 4] + ".yml";
    }
  }

  /** Only one slash and one suffix are removed: "//x" gives "/x" and
      "x.yml.yml" gives "x.yml". */
  lemma SlugFromPathStripsOnce()
    ensures SlugFromPath("//x") == "/x"
    ensures SlugFromPath("x.yml.yml") == "x.yml"
  {
    assert "//x"[1..] == "/x";
    assert !EndsWithYml("/x");
    assert "x.yml.yml"[5..] == ".yml";
    assert "x.yml.yml"[..5] == "x.yml";
  }

  /** Round trip: a slash in front is always undone, and a slash in front
      with ".yml" behind is undone exactly; a bare slash in front gives the
      string back unless it itself ends in ".yml". */
  lemma SlugFromPathRoundTrip(s: string)
    ensures SlugFromPath("/" + s + ".yml") == s
    ensures SlugFromPath("/" + s) == s <==> !EndsWithYml(s)
  {
    assert ("/" + s + ".yml")[1..] == s + ".yml";
    assert ("/" + s)[1..] == s;
    var t := s + ".yml";
    assert t[|t| - 4..] == ".yml" && t[..|t| - 4] == s;
    if EndsWithYml(s) {
      assert |s[..|s| - 4]| < |s|;
    }
  }

  /** `getAllSlugs`: one slug per catalog song, in catalog order. */
  function AllSlugs(songs: seq<Song>, other: CaseMap): (r: seq<string>)
    ensures |r| == |songs|
    ensures forall i :: 0 <= i < |songs| ==> r[i] == SongSlug(songs[i], other)
    ensures forall i :: 0 <= i < |r| ==> IsSlug(r[i]) && '/' !in r[i] && '.' !in r[i]
  {
    seq(|songs|, i requires 0 <= i < |songs| => SongSlug(songs[i], other))
  }

  /** The location of a song's lyrics file. */
  function FetchPath(slug: string): string {
    "/data/songs/" + slug + ".yml"
  }

  /** What the song route renders. */
  datatype Page = NotFound | Lyrics(slug: string, fetchPath: string)

  /** The route's gate: the not-found page exactly when the slug read off
      the path is not a catalog slug; otherwise the lyrics are fetched from
      a path inside the songs directory. */
  function ResolvePage(path: string, songs: seq<Song>, other: CaseMap): (p: Page)
    ensures p.NotFound? <==> SlugFromPath(path) !in AllSlugs(songs, other)
    ensures p.NotFound? <==> forall song | song in songs :: SongSlug(song, other) != SlugFromPath(path)
    ensures p.Lyrics? ==> p.slug == SlugFromPath(path) && IsSlug(p.slug)
    ensures p.Lyrics? ==> p.fetchPath == "/data/songs/" + p.slug + ".yml"
  {
    var slug := SlugFromPath(path);
    var valid := AllSlugs(songs, other);
    assert forall song | song in songs :: SongSlug(song, other) in valid;
    if slug !in valid then NotFound else Lyrics(slug, FetchPath(slug))
  }

  /** A path whose slug is a catalog song's slug opens that song. */
  lemma CatalogSlugResolves(path: string, songs: seq<Song>, song: Song, other: CaseMap)
    requires song in songs && SlugFromPath(path) == SongSlug(song, other)
    ensures ResolvePage(path, songs, other) == Lyrics(SongSlug(song, other), FetchPath(SongSlug(song, other)))
  {
  }

  /** A slug never ends in ".yml", since it holds no '.'. */
  lemma SlugNotYml(slug: string)
    requires '.' !in slug
    ensures !EndsWithYml(slug)
  {
    if |slug| >= 4 {
      assert slug[|slug| - 4] in slug;
      assert slug[|slug| - 4..][0] == slug[|slug| - 4];
    }
  }

  /** Every catalog song's path, with or without ".yml", opens its lyrics. */
  lemma SongPathsResolve(songs: seq<Song>, song: Song, other: CaseMap)
    requires song in songs
    ensures var slug := SongSlug(song, other);
      && ResolvePage("/" + slug, songs, other) == Lyrics(slug, FetchPath(slug))
      && ResolvePage("/" + slug + ".yml", songs, other) == Lyrics(slug, FetchPath(slug))
  {
    var slug := SongSlug(song, other);
    SlugNotYml(slug);
    SlugFromPathRoundTrip(slug);
    CatalogSlugResolves("/" + slug, songs, song, other);
    CatalogSlugResolves("/" + slug + ".yml", songs, song, other);
  }

  /** A song's path opens the lyrics file named by its slug. */
  lemma SongPageOpens(songs: seq<Song>, song: Song, slug: string, other: CaseMap)
    requires song in songs && SongSlug(song, other) == slug
    ensures ResolvePage("/" + slug, songs, other) == Lyrics(slug, "/data/songs/" + slug + ".yml")
  {
    SongPathsResolve(songs, song, other);
  }

  /** A path whose slug holds '/' or '.' never passes the gate, so the
      lyrics request cannot leave the songs directory. */
  lemma TraversalIsNotFound(path: string, songs: seq<Song>, other: CaseMap)
    requires '/' in SlugFromPath(path) || '.' in SlugFromPath(path)
    ensures ResolvePage(path, songs, other) == NotFound
  {
  }

  /** Songs that agree on the key have the same slug. */
  lemma SameKeySameSlug(a: Song, b: Song, other: CaseMap)
    requires SameKey(a, b)
    ensures SongSlug(a, other) == SongSlug(b, other)
  {
  }

  /** Slugs do not tell every two songs apart: titles that differ only in
      the character between two words get the same slug, so the route
      opens the same lyrics file for both. */
  lemma SeparatorsCollide(song: Song, a: string, c1: char, c2: char, b: string, other: CaseMap)
    requires IsSlug(Lower(a, other)) && IsSlug(Lower(b, other))
    requires !IsSlugChar(LowerChar(c1, other)) && !IsSlugChar(LowerChar(c2, other))
    ensures SongSlug(song.(title := a + [c1] + b), other) == SongSlug(song.(title := a + [c2] + b), other)
    ensures c1 != c2 ==> song.(title := a + [c1] + b) != song.(title := a + [c2] + b)
  {
    SluggifyJoinWords(a, c1, b, other);
    SluggifyJoinWords(a, c2, b, other);
    if c1 != c2 {
      assert (a + [c1] + b)[|a|] == c1 && (a + [c2] + b)[|a|] == c2;
    }
  }

  /** Each record of the catalog without years has a twin with the same
      key in the catalog with years. */
  lemma CatalogsShareKeys(song: Song)
    requires song in AppRecords
    ensures exists twin | twin in LegacyRecords :: SameKey(song, twin)
  {
    var i :| 0 <= i < 4 && AppRecords[i] == song;
    assert SameKey(AppRecords[i], LegacyRecords[i]);
    assert LegacyRecords[i] in LegacyRecords;
  }

  /** A result link opens a lyrics page in any catalog holding a song with
      the same key. */
  lemma LinkResolvesInTwin(song: Song, twin: Song, songs: seq<Song>, other: CaseMap)
    requires twin in songs && SameKey(song, twin)
    ensures ResolvePage(ResultLink(song, other), songs, other).Lyrics?
  {
    SameKeySameSlug(song, twin, other);
    SongPathsResolve(songs, twin, other);
  }

  /** Every link the search page shows, built over the catalog without
      years, opens a lyrics page under the route's catalog with years. */
  lemma SearchLinksResolve(other: CaseMap)
    ensures forall song | song in AppCatalog :: ResolvePage(ResultLink(song, other), LegacyCatalog, other).Lyrics?
  {
    forall song | song in AppCatalog
      ensures ResolvePage(ResultLink(song, other), LegacyCatalog, other).Lyrics?
    {
      var twin: Song :| twin in LegacyCatalog && SameKey(song, twin) by {
        AppCatalogOrder();
        LegacyCatalogOrder();
        CatalogsShareKeys(song);
      }
      LinkResolvesInTwin(song, twin, LegacyCatalog, other);
    }
  }

  // The slug of the first catalog song, Aimer's "Ref:rain", field by field.

  lemma AimerSlug(other: CaseMap)
    ensures Sluggify("Aimer", other) == "aimer"
  {
    assert Lower("Aimer", other) == "aimer";
    CollapseKeepsSlug("aimer");
  }

  /** The space between the album's two words becomes one hyphen. */
  lemma PennyRainSlug(other: CaseMap)
    ensures Sluggify("Penny Rain", other) == "penny-rain"
  {
    assert "Penny Rain" == "Penny" + [' '] + "Rain" && "penny" + "-" + "rain" == "penny-rain";
    assert Lower("Penny", other) == "penny" && Lower("Rain", other) == "rain";
    SluggifyJoinWords("Penny", ' ', "Rain", other);
  }

  /** The colon of the title becomes a hyphen. */
  lemma RefRainSlug(other: CaseMap)
    ensures Sluggify("Ref:rain", other) == "ref-rain"
  {
    assert "Ref:rain" == "Ref" + [':'] + "rain" && "ref" + "-" + "rain" == "ref-rain";
    assert Lower("Ref", other) == "ref";
    LowerKeepsSlug("rain", other);
    SluggifyJoinWords("Ref", ':', "rain", other);
  }

  /** The slug of the first catalog song. */
  const FirstSlug: string := "aimer-penny-rain-ref-rain"

  lemma FirstSlugSpelling()
    ensures "aimer" + "-" + "penny-rain" + "-" + "ref-rain" == FirstSlug
  {
  }

  /** Aimer's "Ref:rain" has the slug FirstSlug. */
  lemma FirstSongSlug(other: CaseMap)
    ensures SongSlug(LegacyRecords[0], other) == FirstSlug
  {
    var song := LegacyRecords[0];
    assert song == Song("Aimer", "Penny Rain", "Ref:rain", Some(2019), "Japanese");
    AimerSlug(other);
    PennyRainSlug(other);
    RefRainSlug(other);
    FirstSlugSpelling();
    assert SongSlug(song, other)
        == Sluggify("Aimer", other) + "-" + Sluggify("Penny Rain", other) + "-" + Sluggify("Ref:rain", other);
  }

  /** The first catalog song's slug heads the slug list. */
  lemma FirstSongRoute(other: CaseMap)
    ensures AllSlugs(LegacyCatalog, other)[0] == FirstSlug
  {
    LegacyCatalogOrder();
    FirstSongSlug(other);
  }

  /** The first catalog song's path opens its lyrics file. */
  lemma FirstSongPage(other: CaseMap)
    ensures ResolvePage("/" + FirstSlug, LegacyCatalog, other)
         == Lyrics(FirstSlug, "/data/songs/" + FirstSlug + ".yml")
  {
    var song := LegacyRecords[0];
    assert song in LegacyCatalog && SongSlug(song, other) == FirstSlug by {
      LegacyCatalogOrder();
      FirstSongSlug(other);
    }
    SongPageOpens(LegacyCatalog, song, FirstSlug, other);
  }
}
