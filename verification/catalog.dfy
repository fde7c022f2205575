/** The song catalog: song records, the comparator the catalog is sorted
    with (artist, then album, then title), the sort itself, the literal
    records of the two catalog files, and the slug that names a song. */
module Catalog {
  import opened Wrappers
  import opened Text
  import opened Order
  import opened Slug

  /** One catalog entry. `year` is present in the older catalog only. */
  datatype Song = Song(artist: string, album: string, title: string, year: Option<int>, language: string)

  /** Two songs agree on every field the comparator looks at. */
  predicate SameKey(a: Song, b: Song) {
    a.artist == b.artist && a.album == b.album && a.title == b.title
  }

  /** The sort comparator: the first non-zero of the artist, album and
      title comparisons, and zero only on a three-way tie. */
  function CompareSongs(a: Song, b: Song): (r: int)
    ensures -1 <= r <= 1
    ensures r == 0 <==> SameKey(a, b)
    ensures a.artist != b.artist ==> r == CompareStrings(a.artist, b.artist)
    ensures a.artist == b.artist && a.album != b.album ==> r == CompareStrings(a.album, b.album)
    ensures a.artist == b.artist && a.album == b.album ==> r == CompareStrings(a.title, b.title)
  {
    var artistCmp := CompareStrings(a.artist, b.artist);
    if artistCmp != 0 then artistCmp
    else
      var albumCmp := CompareStrings(a.album, b.album);
      if albumCmp != 0 then albumCmp
      else CompareStrings(a.title, b.title)
  }

  lemma CompareSongsAntisymmetric(a: Song, b: Song)
    ensures CompareSongs(a, b) == -CompareSongs(b, a)
  {
    CompareStringsAntisymmetric(a.artist, b.artist);
    CompareStringsAntisymmetric(a.album, b.album);
    CompareStringsAntisymmetric(a.title, b.title);
  }

  lemma CompareSongsTransitive(a: Song, b: Song, c: Song)
    requires CompareSongs(a, b) <= 0 && CompareSongs(b, c) <= 0
    ensures CompareSongs(a, c) <= 0
  {
    CompareStringsAntisymmetric(a.artist, b.artist);
    CompareStringsAntisymmetric(a.album, b.album);
    CompareStringsAntisymmetric(a.title, b.title);
    if a.artist != b.artist || b.artist != c.artist {
      assert CompareStrings(a.artist, b.artist) <= 0 && CompareStrings(b.artist, c.artist) <= 0;
      CompareStringsTransitive(a.artist, b.artist, c.artist);
    } else if a.album != b.album || b.album != c.album {
      assert CompareStrings(a.album, b.album) <= 0 && CompareStrings(b.album, c.album) <= 0;
      CompareStringsTransitive(a.album, b.album, c.album);
    } else {
      CompareStringsTransitive(a.title, b.title, c.title);
    }
  }

  /** Every earlier song compares no greater than every later one. */
  predicate Sorted(xs: seq<Song>) {
    forall i, j :: 0 <= i < j < |xs| ==> CompareSongs(xs[i], xs[j]) <= 0
  }

  /** Inserts `x` before the first song it does not sort after, so it
      lands before songs with the same key (see `SortStable`). */
  function Insert(x: Song, ys: seq<Song>): (r: seq<Song>)
    ensures multiset(r) == multiset(ys) + multiset{x}
  {
    if |ys| == 0 || CompareSongs(x, ys[0]) <= 0 then [x] + ys
    else
      assert ys == [ys[0]] + ys[1..];
      [ys[0]] + Insert(x, ys[1..])
  }

  lemma {:induction false} InsertKeepsSorted(x: Song, ys: seq<Song>)
    requires Sorted(ys)
    ensures Sorted(Insert(x, ys))
    decreases |ys|
  {
    var r := Insert(x, ys);
    if |ys| == 0 {
    } else if CompareSongs(x, ys[0]) <= 0 {
      forall j | 0 < j < |r| ensures CompareSongs(r[0], r[j]) <= 0 {
        if j > 1 { CompareSongsTransitive(x, ys[0], ys[j - 1]); }
      }
    } else {
      var t := ys[1..];
      assert Sorted(t);
      InsertKeepsSorted(x, t);
      CompareSongsAntisymmetric(x, ys[0]);
      forall j | 0 < j < |r| ensures CompareSongs(r[0], r[j]) <= 0 {
        assert r[j] in multiset(Insert(x, t));
        assert r[j] == x || r[j] in t;
      }
    }
  }

  /** The catalog sort: the result is an ordered permutation of the input. */
  function SortSongs(xs: seq<Song>): (r: seq<Song>)
    ensures multiset(r) == multiset(xs)
    ensures Sorted(r)
  {
    if |xs| == 0 then []
    else
      assert xs == [xs[0]] + xs[1..];
      var t := SortSongs(xs[1..]);
      InsertKeepsSorted(xs[0], t);
      Insert(xs[0], t)
  }

  /** The songs of `xs` whose key is the key of `k`, in their order. */
  function WithKey(xs: seq<Song>, k: Song): seq<Song>
    decreases |xs|
  {
    if |xs| == 0 then []
    else if SameKey(xs[0], k) then [xs[0]] + WithKey(xs[1..], k)
    else WithKey(xs[1..], k)
  }

  /** Inserting `x` puts it ahead of every song with its key. */
  lemma {:induction false} InsertWithKey(x: Song, ys: seq<Song>, k: Song)
    ensures WithKey(Insert(x, ys), k) == if SameKey(x, k) then [x] + WithKey(ys, k) else WithKey(ys, k)
    decreases |ys|
  {
    if |ys| == 0 || CompareSongs(x, ys[0]) <= 0 {
      assert Insert(x, ys) == [x] + ys;
      WithKeySkip(x, ys, k);
    } else {
      InsertWithKey(x, ys[1..], k);
      InsertPastSong(x, ys, k);
    }
  }

  /** When `x` sorts after the head `y` of the list, the two have different
      keys, so `y` and `x` never both belong to one key's songs. */
  lemma InsertPastSong(x: Song, ys: seq<Song>, k: Song)
    requires |ys| > 0 && CompareSongs(x, ys[0]) > 0
    requires WithKey(Insert(x, ys[1..]), k)
          == if SameKey(x, k) then [x] + WithKey(ys[1..], k) else WithKey(ys[1..], k)
    ensures WithKey(Insert(x, ys), k) == if SameKey(x, k) then [x] + WithKey(ys, k) else WithKey(ys, k)
  {
    var y, t := ys[0], ys[1..];
    assert !SameKey(x, y);
    assert Insert(x, ys) == [y] + Insert(x, t);
    WithKeySkip(y, Insert(x, t), k);
    assert ys == [y] + t;
    WithKeySkip(y, t, k);
  }

  /** One unfolding of `WithKey` on a list with a known head. */
  lemma WithKeySkip(y: Song, t: seq<Song>, k: Song)
    ensures WithKey([y] + t, k) == if SameKey(y, k) then [y] + WithKey(t, k) else WithKey(t, k)
  {
    assert ([y] + t)[0] == y && ([y] + t)[1..] == t;
  }

  /** The sort is stable: the songs sharing any one key come out in their
      input order. */
  lemma {:induction false} SortStable(xs: seq<Song>, k: Song)
    ensures WithKey(SortSongs(xs), k) == WithKey(xs, k)
    decreases |xs|
  {
    if |xs| > 0 {
      SortStable(xs[1..], k);
      InsertWithKey(xs[0], SortSongs(xs[1..]), k);
    }
  }

  /** No two different songs of the list share a key. */
  predicate KeysDistinct(xs: seq<Song>) {
    forall a, b | a in xs && b in xs && SameKey(a, b) :: a == b
  }

  lemma SortedTail(xs: seq<Song>)
    requires |xs| > 0 && Sorted(xs)
    ensures Sorted(xs[1..])
  {
    forall i, j | 0 <= i < j < |xs| - 1 ensures CompareSongs(xs[1..][i], xs[1..][j]) <= 0 {
      assert xs[1..][i] == xs[i + 1] && xs[1..][j] == xs[j + 1];
    }
  }

  /** The first song of an ordered list sorts no later than any member. */
  lemma SortedHeadFirst(xs: seq<Song>, y: Song)
    requires |xs| > 0 && Sorted(xs) && y in xs
    ensures CompareSongs(xs[0], y) <= 0
  {
    var k :| 0 <= k < |xs| && xs[k] == y;
    if k > 0 {
      assert CompareSongs(xs[0], xs[k]) <= 0;
    }
  }

  lemma KeysDistinctTail(xs: seq<Song>)
    requires |xs| > 0 && KeysDistinct(xs)
    ensures KeysDistinct(xs[1..])
  {
    forall a, b | a in xs[1..] && b in xs[1..] && SameKey(a, b) ensures a == b {
      assert a in xs && b in xs;
    }
  }

  /** Two ordered permutations of a list with distinct keys start alike. */
  lemma SortedHeadsAgree(xs: seq<Song>, ys: seq<Song>)
    requires |xs| > 0 && |ys| > 0
    requires Sorted(xs) && Sorted(ys)
    requires multiset(xs) == multiset(ys)
    requires KeysDistinct(xs)
    ensures xs[0] == ys[0]
  {
    assert xs[0] in multiset(ys) && ys[0] in multiset(xs);
    SortedHeadFirst(xs, ys[0]);
    SortedHeadFirst(ys, xs[0]);
    CompareSongsAntisymmetric(xs[0], ys[0]);
  }

  /** Removing equal heads from equal multisets leaves equal multisets. */
  lemma MultisetTail(xs: seq<Song>, ys: seq<Song>)
    requires |xs| > 0 && |ys| > 0 && xs[0] == ys[0]
    requires multiset(xs) == multiset(ys)
    ensures multiset(xs[1..]) == multiset(ys[1..])
  {
    assert xs == [xs[0]] + xs[1..] && ys == [ys[0]] + ys[1..];
    assert multiset(xs[1..]) == multiset(xs) - multiset{xs[0]};
    assert multiset(ys[1..]) == multiset(ys) - multiset{ys[0]};
  }

  /** When keys are distinct an ordered permutation is unique, so the
      catalog order does not depend on which sorting algorithm the
      JavaScript engine uses. */
  lemma {:induction false} SortedPermutationUnique(xs: seq<Song>, ys: seq<Song>)
    requires Sorted(xs) && Sorted(ys)
    requires multiset(xs) == multiset(ys)
    requires KeysDistinct(xs)
    ensures xs == ys
    decreases |xs|
  {
    assert |xs| == |multiset(xs)| == |multiset(ys)| == |ys|;
    if |xs| > 0 {
      SortedHeadsAgree(xs, ys);
      MultisetTail(xs, ys);
      KeysDistinctTail(xs);
      SortedTail(xs);
      SortedTail(ys);
      SortedPermutationUnique(xs[1..], ys[1..]);
      assert xs == [xs[0]] + xs[1..] && ys == [ys[0]] + ys[1..];
    }
  }

  /** A list that is already ordered comes out of the sort unchanged,
      repeated keys included. */
  lemma {:induction false} SortKeepsSortedInput(xs: seq<Song>)
    requires Sorted(xs)
    ensures SortSongs(xs) == xs
    decreases |xs|
  {
    if |xs| > 0 {
      SortedTail(xs);
      SortKeepsSortedInput(xs[1..]);
      if |xs| > 1 {
        assert CompareSongs(xs[0], xs[1..][0]) <= 0;
      }
      assert Insert(xs[0], xs[1..]) == [xs[0]] + xs[1..] == xs;
    }
  }

  /** The literal records of src/songsData.ts, in source order. */
  const LegacyRecords: seq<Song> := [
    Song("Aimer", "Penny Rain", "Ref:rain", Some(2019), "Japanese"),
    Song("BABYMETAL", "METAL RESISTANCE", "No Rain No Rainbow", Some(2016), "Japanese"),
    Song("THE ORAL CIGARETTES", "BLACK MEMORY", "Flower", Some(2017), "Japanese"),
    Song("THE ORAL CIGARETTES", "FIXION", "Amy", Some(2016), "Japanese")
  ]

  /** The literal records of src/app/ts/songsData.ts: the same songs
      without a year. */
  const AppRecords: seq<Song> := [
    Song("Aimer", "Penny Rain", "Ref:rain", None, "Japanese"),
    Song("BABYMETAL", "METAL RESISTANCE", "No Rain No Rainbow", None, "Japanese"),
    Song("THE ORAL CIGARETTES", "BLACK MEMORY", "Flower", None, "Japanese"),
    Song("THE ORAL CIGARETTES", "FIXION", "Amy", None, "Japanese")
  ]

  /** `allSongs` of src/songsData.ts. */
  const LegacyCatalog: seq<Song> := SortSongs(LegacyRecords)

  /** `allSongs` of src/app/ts/songsData.ts. */
  const AppCatalog: seq<Song> := SortSongs(AppRecords)

  /** Four songs in strictly increasing comparator order, pair by pair,
      are ordered with distinct keys. */
  lemma IncreasingFour(r: seq<Song>)
    requires |r| == 4
    requires forall i, j :: 0 <= i < j < 4 ==> CompareSongs(r[i], r[j]) < 0
    ensures Sorted(r) && KeysDistinct(r)
  {
    forall a, b | a in r && b in r && SameKey(a, b) ensures a == b {
      var i :| 0 <= i < 4 && r[i] == a;
      var j :| 0 <= j < 4 && r[j] == b;
    }
  }

  /** The keys of the four catalog records increase: the artists differ
      at their first letter, and the two songs by the same artist differ at
      the first letter of the album. */
  lemma CatalogKeysIncrease(r: seq<Song>)
    requires |r| == 4
    requires r[0].artist == "Aimer" && r[1].artist == "BABYMETAL"
    requires r[2].artist == "THE ORAL CIGARETTES" && r[3].artist == "THE ORAL CIGARETTES"
    requires r[2].album == "BLACK MEMORY" && r[3].album == "FIXION"
    ensures forall i, j :: 0 <= i < j < 4 ==> CompareSongs(r[i], r[j]) < 0
  {
    assert CompareStrings("Aimer", "BABYMETAL") < 0 by {
      FirstCharOrder("Aimer", "BABYMETAL");
    }
    assert CompareStrings("Aimer", "THE ORAL CIGARETTES") < 0 by {
      FirstCharOrder("Aimer", "THE ORAL CIGARETTES");
    }
    assert CompareStrings("BABYMETAL", "THE ORAL CIGARETTES") < 0 by {
      FirstCharOrder("BABYMETAL", "THE ORAL CIGARETTES");
    }
    assert CompareStrings("BLACK MEMORY", "FIXION") < 0 by {
      FirstCharOrder("BLACK MEMORY", "FIXION");
    }
    forall i, j | 0 <= i < j < 4 ensures CompareSongs(r[i], r[j]) < 0 {
      if j < 2 || i < 2 {
        assert r[i].artist != r[j].artist;
      }
    }
  }

  /** The four records are already in comparator order with distinct
      keys, so the sorted catalog lists them exactly as written. */
  lemma LegacyCatalogOrder()
    ensures LegacyCatalog == LegacyRecords
  {
    CatalogKeysIncrease(LegacyRecords);
    IncreasingFour(LegacyRecords);
    SortKeepsSortedInput(LegacyRecords);
  }

  /** Same for the catalog without years. */
  lemma AppCatalogOrder()
    ensures AppCatalog == AppRecords
  {
    CatalogKeysIncrease(AppRecords);
    IncreasingFour(AppRecords);
    SortKeepsSortedInput(AppRecords);
  }

  /** The slug naming a song: the three slugged key fields joined by '-'.
      It lies in the slug alphabet, so it holds no '/' and no '.'. */
  function SongSlug(song: Song, other: CaseMap): (r: string)
    ensures IsSlug(r)
    ensures '/' !in r && '.' !in r
  {
    Sluggify(song.artist, other) + "-" + Sluggify(song.album, other) + "-" + Sluggify(song.title, other)
  }
}
