/** Character-level string operations the catalog code relies on:
    JavaScript's toLowerCase, the regular-expression class `\s`, and
    String.prototype.includes. A string is a sequence of characters. */
module Text {

  /** How toLowerCase maps a character outside ASCII, one character to
      one, regardless of its neighbours. Unicode case mapping is not
      modelled, and neither are expansions (U+0130) or the context-dependent
      final sigma. Every operation that lower-cases takes this map as a
      parameter, so each property proved holds whatever the map is, unless
      a lemma requires the map to fix the whitespace characters. */
  type CaseMap = char -> char

  predicate IsAsciiUpper(c: char) {
    'A' <= c <= 'Z'
  }

  /** toLowerCase on one character: exact on ASCII, abstract elsewhere. */
  function LowerChar(c: char, other: CaseMap): char {
    if IsAsciiUpper(c) then (c as int + 32) as char
    else if c as int < 128 then c
    else other(c)
  }

  /** String.prototype.toLowerCase, character by character. */
  function Lower(s: string, other: CaseMap): (r: string)
    ensures |r| == |s|
    ensures forall i :: 0 <= i < |s| ==> r[i] == LowerChar(s[i], other)
  {
    if |s| == 0 then "" else [LowerChar(s[0], other)] + Lower(s[1..], other)
  }

  /** ASCII characters other than the capitals are their own lower case. */
  predicate IsLowerAscii(c: char) {
    c as int < 128 && !IsAsciiUpper(c)
  }

  /** Lower-casing distributes over concatenation. */
  lemma LowerAppend(a: string, b: string, other: CaseMap)
    ensures Lower(a + b, other) == Lower(a, other) + Lower(b, other)
  {
    var l, r := Lower(a + b, other), Lower(a, other) + Lower(b, other);
    assert |l| == |r|;
    forall i | 0 <= i < |l| ensures l[i] == r[i] {
      if i < |a| {
        assert (a + b)[i] == a[i];
      } else {
        assert (a + b)[i] == b[i - |a|];
      }
    }
  }

  /** Concatenation is associative. */
  lemma AppendAssoc(x: string, y: string, z: string)
    ensures x + (y + z) == (x + y) + z
  {
  }

  /** Dropping the first character of a concatenation drops it from the
      first part. */
  lemma AppendTail(x: string, y: string)
    requires |x| > 0
    ensures (x + y)[0] == x[0] && (x + y)[1..] == x[1..] + y
  {
  }

  lemma ConsTail(c: char, y: string)
    ensures ([c] + y)[0] == c && ([c] + y)[1..] == y
  {
  }

  /** A string without ASCII capitals and without non-ASCII characters is
      left unchanged by lower-casing, whatever the non-ASCII map is. */
  lemma LowerKeepsLowerAscii(s: string, other: CaseMap)
    requires forall i :: 0 <= i < |s| ==> IsLowerAscii(s[i])
    ensures Lower(s, other) == s
  {
    var l := Lower(s, other);
    forall i | 0 <= i < |s| ensures l[i] == s[i] {
      assert IsLowerAscii(s[i]);
    }
  }

  /** The characters JavaScript's regular-expression class `\s` matches:
      the ASCII blanks and the Unicode space separators, line and paragraph
      separators and the byte-order mark. */
  predicate IsWhitespace(c: char) {
    || c == ' ' || c == '\t' || c == '\n' || c == '\U{000B}' || c == '\U{000C}' || c == '\r'
    || c == '\U{00A0}' || c == '\U{1680}' || ('\U{2000}' <= c <= '\U{200A}')
    || c == '\U{2028}' || c == '\U{2029}' || c == '\U{202F}' || c == '\U{205F}'
    || c == '\U{3000}' || c == '\U{FEFF}'
  }

  /** An ASCII character is whitespace exactly when its lower case is:
      capitals become letters, and every other ASCII character is kept. */
  lemma LowerCharAsciiWhitespace(c: char, other: CaseMap)
    requires c as int < 128
    ensures IsWhitespace(LowerChar(c, other)) <==> IsWhitespace(c)
  {
    if IsAsciiUpper(c) {
      assert 'a' <= LowerChar(c, other) <= 'z';
    }
  }

  /** String.prototype.includes: `pat` occurs in `text` as a contiguous
      block. The empty pattern occurs in every text. */
  predicate Contains(text: string, pat: string)
    decreases |text|
  {
    if |pat| > |text| then false
    else if text[..|pat|] == pat then true
    else |text| > 0 && Contains(text[1..], pat)
  }

  /** An occurrence at a given offset makes `Contains` true. */
  lemma {:induction false} ContainsAt(text: string, pat: string, i: nat)
    requires i + |pat| <= |text| && text[i..i + |pat|] == pat
    ensures Contains(text, pat)
    decreases i
  {
    if text[..|pat|] != pat {
      assert i > 0;
      assert text[1..][i - 1..i - 1 + |pat|] == text[i..i + |pat|];
      ContainsAt(text[1..], pat, i - 1);
    }
  }

  /** Conversely, `Contains` always has a witness offset. */
  lemma {:induction false} ContainsOffset(text: string, pat: string) returns (i: nat)
    requires Contains(text, pat)
    ensures i + |pat| <= |text| && text[i..i + |pat|] == pat
    decreases |text|
  {
    if text[..|pat|] == pat {
      i := 0;
    } else {
      var j := ContainsOffset(text[1..], pat);
      assert text[1..][j..j + |pat|] == text[j + 1..j + 1 + |pat|];
      i := j + 1;
    }
  }

  /** A block of a block of `text` is a block of `text`. */
  lemma ContainsTransitive(text: string, mid: string, pat: string)
    requires Contains(text, mid) && Contains(mid, pat)
    ensures Contains(text, pat)
  {
    var i := ContainsOffset(text, mid);
    var j := ContainsOffset(mid, pat);
    forall k | 0 <= k < |pat| ensures text[i + j + k] == pat[k] {
      assert pat[k] == mid[j + k] == text[i + j + k];
    }
    assert text[i + j..i + j + |pat|] == pat;
    ContainsAt(text, pat, i + j);
  }

  /** Both halves of a concatenation occur in it. */
  lemma ContainsParts(a: string, b: string)
    ensures Contains(a + b, a) && Contains(a + b, b)
  {
    assert (a + b)[0..|a|] == a;
    ContainsAt(a + b, a, 0);
    assert (a + b)[|a|..|a| + |b|] == b;
    ContainsAt(a + b, b, |a|);
  }
}
