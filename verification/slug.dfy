/** URL slugs: `sluggify` lower-cases a string and replaces every maximal
    run of characters outside `[a-z0-9-]` with a single hyphen
    (`replace(/[^a-z0-9-]+/g, "-")`). */
module Slug {
  import opened Text

  /** The characters the slug regular expression leaves alone. */
  predicate IsSlugChar(c: char) {
    'a' <= c <= 'z' || '0' <= c <= '9' || c == '-'
  }

  predicate IsSlug(s: string) {
    forall i :: 0 <= i < |s| ==> IsSlugChar(s[i])
  }

  /** True when no character of `s` belongs to the slug alphabet. */
  predicate IsForeignRun(s: string) {
    forall i :: 0 <= i < |s| ==> !IsSlugChar(s[i])
  }

  /** What the replacement emits for one character: the character itself
      when it is in the alphabet, a hyphen when it opens a run of other
      characters, nothing when it continues such a run. */
  function Emit(c: char, inRun: bool): (r: string)
    ensures IsSlug(r) && |r| <= 1
  {
    if IsSlugChar(c) then [c] else if inRun then "" else "-"
  }

  /** The global replacement, scanning left to right. `inRun` holds when the
      previous character was outside the alphabet, so its run has already
      produced its hyphen. */
  function ReplaceRuns(s: string, inRun: bool): (r: string)
    ensures IsSlug(r)
    ensures |r| <= |s|
    decreases |s|
  {
    if |s| == 0 then ""
    else Emit(s[0], inRun) + ReplaceRuns(s[1..], !IsSlugChar(s[0]))
  }

  /** `replace(/[^a-z0-9-]+/g, "-")` applied to the whole string. */
  function CollapseRuns(s: string): string {
    ReplaceRuns(s, false)
  }

  /** `sluggify`: the output lies in the slug alphabet and is never longer
      than the lower-cased input, which here has the input's length. */
  function Sluggify(s: string, other: CaseMap): (r: string)
    ensures IsSlug(r)
    ensures |r| <= |Lower(s, other)|
    ensures |r| <= |s|
  {
    CollapseRuns(Lower(s, other))
  }

  lemma {:induction false} ReplaceForeignRun(u: string, inRun: bool)
    requires IsForeignRun(u)
    ensures ReplaceRuns(u, inRun) == if inRun || |u| == 0 then "" else "-"
    decreases |u|
  {
    if |u| > 0 {
      assert !IsSlugChar(u[0]);
      assert IsForeignRun(u[1..]) by {
        forall i | 0 <= i < |u| - 1 ensures !IsSlugChar(u[1..][i]) {
          assert u[1..][i] == u[i + 1];
        }
      }
      ReplaceForeignRun(u[1..], true);
    }
  }

  /** A non-empty run of characters outside the alphabet becomes exactly one
      hyphen. */
  lemma CollapseForeignRun(u: string)
    requires |u| > 0 && IsForeignRun(u)
    ensures CollapseRuns(u) == "-"
  {
    ReplaceForeignRun(u, false);
  }

  /** One step of the replacement: the first character's output, then the
      rest scanned with the run flag it leaves behind. */
  lemma ReplaceStep(a: string, c: char, b: string, inRun: bool)
    requires |a| > 0 && IsSlugChar(c)
    requires ReplaceRuns(a[1..] + [c] + b, !IsSlugChar(a[0]))
          == ReplaceRuns(a[1..], !IsSlugChar(a[0])) + [c] + ReplaceRuns(b, false)
    ensures ReplaceRuns(a + [c] + b, inRun) == ReplaceRuns(a, inRun) + [c] + ReplaceRuns(b, false)
  {
    var s := a + [c] + b;
    var run := !IsSlugChar(a[0]);
    var e := Emit(a[0], inRun);
    var mid, tail := ReplaceRuns(a[1..], run), ReplaceRuns(b, false);
    AppendTail(a + [c], b);
    AppendTail(a, [c]);
    assert ReplaceRuns(a, inRun) == e + mid;
    assert ReplaceRuns(s, inRun) == e + (mid + [c] + tail);
    AppendAssoc(e, mid + [c], tail);
    AppendAssoc(e, mid, [c]);
  }

  lemma {:induction false} ReplaceAroundSlugChar(a: string, c: char, b: string, inRun: bool)
    requires IsSlugChar(c)
    ensures ReplaceRuns(a + [c] + b, inRun) == ReplaceRuns(a, inRun) + [c] + ReplaceRuns(b, false)
    decreases |a|
  {
    if |a| == 0 {
      assert a + [c] + b == [c] + b && ([c] + b)[1..] == b;
    } else {
      ReplaceAroundSlugChar(a[1..], c, b, !IsSlugChar(a[0]));
      ReplaceStep(a, c, b, inRun);
    }
  }

  /** A character of the alphabet stays in place and separates the string
      into two parts that are replaced independently: runs never merge
      across it. With `CollapseForeignRun` and the empty case this
      determines the replacement completely. */
  lemma CollapseAroundSlugChar(a: string, c: char, b: string)
    requires IsSlugChar(c)
    ensures CollapseRuns(a + [c] + b) == CollapseRuns(a) + [c] + CollapseRuns(b)
  {
    ReplaceAroundSlugChar(a, c, b, false);
  }

  lemma {:induction false} ReplaceKeepsSlug(s: string, inRun: bool)
    requires IsSlug(s)
    ensures ReplaceRuns(s, inRun) == s
    decreases |s|
  {
    if |s| > 0 {
      assert IsSlug(s[1..]) by {
        forall i | 0 <= i < |s| - 1 ensures IsSlugChar(s[1..][i]) {
          assert s[1..][i] == s[i + 1];
        }
      }
      ReplaceKeepsSlug(s[1..], false);
      assert s == [s[0]] + s[1..];
    }
  }

  /** A string already in the slug alphabet is left alone by the
      replacement. */
  lemma CollapseKeepsSlug(s: string)
    requires IsSlug(s)
    ensures CollapseRuns(s) == s
  {
    ReplaceKeepsSlug(s, false);
  }

  /** Every slug character is lower-case ASCII, so lower-casing a slug
      changes nothing. */
  lemma LowerKeepsSlug(s: string, other: CaseMap)
    requires IsSlug(s)
    ensures Lower(s, other) == s
  {
    forall i | 0 <= i < |s| ensures IsLowerAscii(s[i]) {
      assert IsSlugChar(s[i]);
    }
    LowerKeepsLowerAscii(s, other);
  }

  /** At the level of `sluggify`: a slug character of the input is kept in
      place, and the text on either side is slugged independently. */
  lemma SluggifyAroundSlugChar(a: string, c: char, b: string, other: CaseMap)
    requires IsSlugChar(c)
    ensures Sluggify(a + [c] + b, other) == Sluggify(a, other) + [c] + Sluggify(b, other)
  {
    LowerAppend(a + [c], b, other);
    LowerAppend(a, [c], other);
    LowerKeepsSlug([c], other);
    CollapseAroundSlugChar(Lower(a, other), c, Lower(b, other));
  }

  lemma CollapseAfterSlugChar(x: string, y: string)
    requires |x| > 0 && IsSlugChar(x[|x| - 1])
    ensures CollapseRuns(x + y) == CollapseRuns(x) + CollapseRuns(y)
  {
    var n := |x| - 1;
    var c := x[n];
    assert x == x[..n] + [c] + "";
    assert x + y == x[..n] + [c] + y;
    CollapseAroundSlugChar(x[..n], c, y);
    CollapseAroundSlugChar(x[..n], c, "");
  }

  /** A string whose first part lower-cases to end in the slug alphabet is
      slugged part by part. */
  lemma SluggifyAfterSlugChar(a: string, b: string, other: CaseMap)
    requires |a| > 0 && IsSlugChar(Lower(a, other)[|a| - 1])
    ensures Sluggify(a + b, other) == Sluggify(a, other) + Sluggify(b, other)
  {
    LowerAppend(a, b, other);
    CollapseAfterSlugChar(Lower(a, other), Lower(b, other));
  }

  /** Two strings of the slug alphabet around one character outside it
      are joined by a single hyphen. */
  lemma CollapseJoin(x: string, c: char, y: string)
    requires IsSlug(x) && IsSlug(y) && !IsSlugChar(c)
    ensures CollapseRuns(x + ([c] + y)) == x + "-" + y
  {
    assert CollapseRuns([c] + y) == "-" + y by {
      ConsTail(c, y);
      ReplaceKeepsSlug(y, true);
    }
    if |x| == 0 {
      assert x + ([c] + y) == [c] + y && x + "-" + y == "-" + y;
    } else {
      assert CollapseRuns(x + ([c] + y)) == x + CollapseRuns([c] + y) by {
        assert IsSlugChar(x[|x| - 1]);
        CollapseAfterSlugChar(x, [c] + y);
        CollapseKeepsSlug(x);
      }
      AppendAssoc(x, "-", y);
    }
  }

  /** Two words that lower-case into the slug alphabet, separated by one
      character that does not, are joined by a single hyphen; an empty
      first word leaves the hyphen in front. */
  lemma SluggifyJoinWords(a: string, c: char, b: string, other: CaseMap)
    requires IsSlug(Lower(a, other)) && IsSlug(Lower(b, other))
    requires !IsSlugChar(LowerChar(c, other))
    ensures Sluggify(a + [c] + b, other) == Lower(a, other) + "-" + Lower(b, other)
  {
    var x, y := Lower(a, other), Lower(b, other);
    var lc := LowerChar(c, other);
    assert Lower(a + [c] + b, other) == x + ([lc] + y) by {
      LowerAppend(a + [c], b, other);
      LowerAppend(a, [c], other);
      assert Lower([c], other) == [lc];
      AppendAssoc(x, [lc], y);
    }
    CollapseJoin(x, lc, y);
  }

  /** `sluggify` leaves a string unchanged exactly when the string is
      already in the slug alphabet. */
  lemma SluggifyFixedPoints(s: string, other: CaseMap)
    ensures Sluggify(s, other) == s <==> IsSlug(s)
  {
    if IsSlug(s) {
      LowerKeepsSlug(s, other);
      CollapseKeepsSlug(s);
    }
  }

  /** `sluggify` is idempotent. */
  lemma SluggifyIdempotent(s: string, other: CaseMap)
    ensures Sluggify(Sluggify(s, other), other) == Sluggify(s, other)
  {
    SluggifyFixedPoints(Sluggify(s, other), other);
  }

  /** Hyphens already present are kept, next to the one a run produces:
      "a -b" gives "a--b", and the empty string gives itself. */
  lemma SluggifyKeepsHyphens(other: CaseMap)
    ensures Sluggify("a -b", other) == "a--b"
    ensures Sluggify("", other) == ""
  {
    assert "a -b" == "a" + [' '] + "-b" && "a" + "-" + "-b" == "a--b";
    LowerKeepsSlug("a", other);
    LowerKeepsSlug("-b", other);
    SluggifyJoinWords("a", ' ', "-b", other);
  }
}
