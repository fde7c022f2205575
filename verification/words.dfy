/** Splitting a search query into words: `split(/\s+/)` followed by
    `filter(Boolean)`, which drops the empty pieces. */
module Words {
  import opened Text

  /** No character of `s` is whitespace. */
  predicate IsWord(s: string) {
    forall i :: 0 <= i < |s| ==> !IsWhitespace(s[i])
  }

  /** Every character of `s` is whitespace. */
  predicate IsBlank(s: string) {
    forall i :: 0 <= i < |s| ==> IsWhitespace(s[i])
  }

  /** Length of the longest prefix of `s` without whitespace. */
  function WordLength(s: string): (n: nat)
    ensures n <= |s| && IsWord(s[..n])
    ensures n < |s| ==> IsWhitespace(s[n])
  {
    if |s| == 0 || IsWhitespace(s[0]) then 0 else 1 + WordLength(s[1..])
  }

  /** Length of the longest whitespace prefix of `s`. */
  function GapLength(s: string): (n: nat)
    ensures n <= |s| && IsBlank(s[..n])
    ensures n < |s| ==> !IsWhitespace(s[n])
  {
    if |s| == 0 || !IsWhitespace(s[0]) then 0 else 1 + GapLength(s[1..])
  }

  /** `s.split(/\s+/)`: the pieces between maximal whitespace runs. A
      leading or trailing run yields an empty first or last piece, and the
      empty string splits into one empty piece. */
  function Split(s: string): (pieces: seq<string>)
    ensures |pieces| > 0
    decreases |s|
  {
    var n := WordLength(s);
    if n == |s| then [s]
    else
      var rest := s[n..];
      [s[..n]] + Split(rest[GapLength(rest)..])
  }

  /** `filter(Boolean)` on strings: keeps the non-empty ones, in order. */
  function NonEmpty(pieces: seq<string>): (r: seq<string>)
    ensures forall i :: 0 <= i < |r| ==> r[i] != "" && r[i] in pieces
  {
    if |pieces| == 0 then []
    else if pieces[0] == "" then NonEmpty(pieces[1..])
    else [pieces[0]] + NonEmpty(pieces[1..])
  }

  /** The words of a query: `split(/\s+/).filter(Boolean)`. */
  function WordsOf(s: string): seq<string> {
    NonEmpty(Split(s))
  }

  // A reference definition scanning one character at a time: `cur` is the
  // word read so far, emitted when whitespace or the end is reached.

  function Flush(cur: string): seq<string> {
    if cur == "" then [] else [cur]
  }

  function TokensFrom(s: string, cur: string): seq<string>
    decreases |s|
  {
    if |s| == 0 then Flush(cur)
    else if IsWhitespace(s[0]) then Flush(cur) + TokensFrom(s[1..], "")
    else TokensFrom(s[1..], cur + [s[0]])
  }

  /** The maximal whitespace-free blocks of `s`, left to right. */
  function Tokens(s: string): seq<string> {
    TokensFrom(s, "")
  }

  lemma {:induction false} TokensAfterWord(w: string, t: string, cur: string)
    requires IsWord(w)
    ensures TokensFrom(w + t, cur) == TokensFrom(t, cur + w)
    decreases |w|
  {
    if |w| == 0 {
      assert w + t == t && cur + w == cur;
    } else {
      assert (w + t)[0] == w[0] && !IsWhitespace(w[0]);
      assert (w + t)[1..] == w[1..] + t;
      assert (cur + [w[0]]) + w[1..] == cur + w;
      assert IsWord(w[1..]) by {
        forall i | 0 <= i < |w[1..]| ensures !IsWhitespace(w[1..][i]) {
          assert w[1..][i] == w[i + 1];
        }
      }
      TokensAfterWord(w[1..], t, cur + [w[0]]);
    }
  }

  lemma {:induction false} TokensAfterGap(g: string, t: string)
    requires IsBlank(g)
    ensures TokensFrom(g + t, "") == TokensFrom(t, "")
    decreases |g|
  {
    if |g| == 0 {
      assert g + t == t;
    } else {
      assert (g + t)[0] == g[0] && IsWhitespace(g[0]);
      assert (g + t)[1..] == g[1..] + t;
      assert IsBlank(g[1..]) by {
        forall i | 0 <= i < |g[1..]| ensures IsWhitespace(g[1..][i]) {
          assert g[1..][i] == g[i + 1];
        }
      }
      TokensAfterGap(g[1..], t);
    }
  }

  lemma NonEmptyAppend(a: seq<string>, b: seq<string>)
    ensures NonEmpty(a + b) == NonEmpty(a) + NonEmpty(b)
  {
    if |a| > 0 {
      assert (a + b)[1..] == a[1..] + b;
      NonEmptyAppend(a[1..], b);
    } else {
      assert a + b == b;
    }
  }

  /** A whitespace run ends the current word and is then skipped. */
  lemma TokensAtGap(rest: string, cur: string)
    requires |rest| > 0 && IsWhitespace(rest[0])
    ensures TokensFrom(rest, cur) == Flush(cur) + TokensFrom(rest[GapLength(rest)..], "")
  {
    var g := GapLength(rest);
    assert rest[1..] == rest[1..g] + rest[g..];
    assert IsBlank(rest[1..g]) by {
      forall i | 0 <= i < g - 1 ensures IsWhitespace(rest[1..g][i]) {
        assert rest[1..g][i] == rest[..g][i + 1];
      }
    }
    TokensAfterGap(rest[1..g], rest[g..]);
  }

  /** The split-and-filter of the source yields exactly the maximal
      whitespace-free blocks. */
  lemma {:induction false} WordsAreTokens(s: string)
    ensures WordsOf(s) == Tokens(s)
    decreases |s|
  {
    var n := WordLength(s);
    var w := s[..n];
    assert s == w + s[n..];
    TokensAfterWord(w, s[n..], "");
    assert "" + w == w;
    if n == |s| {
      assert s[n..] == "" && w == s;
      assert NonEmpty([s]) == Flush(s);
    } else {
      var rest := s[n..];
      var tail := rest[GapLength(rest)..];
      assert Split(s) == [w] + Split(tail);
      TokensAtGap(rest, w);
      WordsAreTokens(tail);
      NonEmptyAppend([w], Split(tail));
      assert NonEmpty([w]) == Flush(w);
    }
  }

  /** A non-empty query without whitespace is a single word. */
  lemma SingleWord(w: string)
    requires w != "" && IsWord(w)
    ensures WordsOf(w) == [w]
  {
    WordsAreTokens(w);
    TokensAfterWord(w, "", "");
    assert w + "" == w && "" + w == w;
  }

  /** Two words joined by one whitespace character split back into
      exactly those two words. */
  lemma TwoWords(a: string, c: char, b: string)
    requires a != "" && IsWord(a) && b != "" && IsWord(b) && IsWhitespace(c)
    ensures WordsOf(a + [c] + b) == [a, b]
  {
    WordsAcrossGap(a, c, b);
    SingleWord(a);
    SingleWord(b);
  }

  lemma {:induction false} TokensFromAreWords(s: string, cur: string)
    requires IsWord(cur)
    ensures forall w | w in TokensFrom(s, cur) :: w != "" && IsWord(w)
    decreases |s|
  {
    if |s| > 0 {
      if IsWhitespace(s[0]) {
        TokensFromAreWords(s[1..], "");
      } else {
        assert IsWord(cur + [s[0]]);
        TokensFromAreWords(s[1..], cur + [s[0]]);
      }
    }
  }

  lemma {:induction false} TokensFromOccur(s: string, cur: string)
    ensures forall w | w in TokensFrom(s, cur) :: Contains(cur + s, w)
    decreases |s|
  {
    if |s| == 0 {
      if cur != "" { ContainsParts(cur, s); }
    } else if IsWhitespace(s[0]) {
      TokensFromOccur(s[1..], "");
      assert "" + s[1..] == s[1..];
      assert cur + s == (cur + [s[0]]) + s[1..];
      ContainsParts(cur, s);
      ContainsParts(cur + [s[0]], s[1..]);
      forall w | w in TokensFrom(s[1..], "") ensures Contains(cur + s, w) {
        ContainsTransitive(cur + s, s[1..], w);
      }
    } else {
      TokensFromOccur(s[1..], cur + [s[0]]);
      assert (cur + [s[0]]) + s[1..] == cur + s;
    }
  }

  /** Every word of a query is non-empty, free of whitespace, and occurs in
      the query as a contiguous block. */
  lemma WordsOccurInText(s: string)
    ensures forall w | w in WordsOf(s) :: w != "" && IsWord(w) && Contains(s, w)
  {
    WordsAreTokens(s);
    TokensFromAreWords(s, "");
    TokensFromOccur(s, "");
    assert "" + s == s;
  }

  lemma {:induction false} TokensFromAcrossGap(a: string, c: char, b: string, cur: string)
    requires IsWhitespace(c)
    ensures TokensFrom(a + [c] + b, cur) == TokensFrom(a, cur) + TokensFrom(b, "")
    decreases |a|
  {
    if |a| == 0 {
      assert a + [c] + b == [c] + b;
      assert ([c] + b)[1..] == b;
    } else {
      assert (a + [c] + b)[1..] == a[1..] + [c] + b;
      if IsWhitespace(a[0]) {
        TokensFromAcrossGap(a[1..], c, b, "");
      } else {
        TokensFromAcrossGap(a[1..], c, b, cur + [a[0]]);
      }
    }
  }

  /** Words separated by a whitespace character stay separate words:
      appending " w" to a query appends the words of `w`. */
  lemma WordsAcrossGap(a: string, c: char, b: string)
    requires IsWhitespace(c)
    ensures WordsOf(a + [c] + b) == WordsOf(a) + WordsOf(b)
  {
    WordsAreTokens(a + [c] + b);
    WordsAreTokens(a);
    WordsAreTokens(b);
    TokensFromAcrossGap(a, c, b, "");
  }

  lemma {:induction false} TokensFromBlank(s: string, cur: string)
    ensures TokensFrom(s, cur) == [] <==> cur == "" && IsBlank(s)
    decreases |s|
  {
    if |s| > 0 {
      if IsWhitespace(s[0]) {
        TokensFromBlank(s[1..], "");
        if cur == "" && IsBlank(s) {
          assert IsBlank(s[1..]) by {
            forall i | 0 <= i < |s[1..]| ensures IsWhitespace(s[1..][i]) {
              assert s[1..][i] == s[i + 1];
            }
          }
        }
        if cur == "" && IsBlank(s[1..]) {
          forall i | 0 <= i < |s| ensures IsWhitespace(s[i]) {
            if i > 0 { assert s[i] == s[1..][i - 1]; }
          }
        }
      } else {
        TokensFromBlank(s[1..], cur + [s[0]]);
      }
    }
  }

  /** A query has no words exactly when it is empty or all whitespace. */
  lemma WordsEmptyIffBlank(s: string)
    ensures WordsOf(s) == [] <==> IsBlank(s)
  {
    WordsAreTokens(s);
    TokensFromBlank(s, "");
  }
}
