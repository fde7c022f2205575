/** The string comparison behind the catalog sort. localeCompare is
    modelled as plain lexicographic order on characters; only the sign of
    its result is used, so the model returns -1, 0 or 1. */
module Order {

  /** Lexicographic comparison: negative when `a` sorts first, zero when
      the strings are equal, positive when `b` sorts first. */
  function CompareStrings(a: string, b: string): (r: int)
    ensures -1 <= r <= 1
    ensures r == 0 <==> a == b
    decreases |a|
  {
    if |a| == 0 then (if |b| == 0 then 0 else -1)
    else if |b| == 0 then 1
    else if a[0] < b[0] then -1
    else if a[0] > b[0] then 1
    else
      assert a == [a[0]] + a[1..] && b == [b[0]] + b[1..];
      CompareStrings(a[1..], b[1..])
  }

  /** Swapping the arguments flips the sign. */
  lemma {:induction false} CompareStringsAntisymmetric(a: string, b: string)
    ensures CompareStrings(a, b) == -CompareStrings(b, a)
    decreases |a|
  {
    if |a| > 0 && |b| > 0 && a[0] == b[0] {
      CompareStringsAntisymmetric(a[1..], b[1..]);
    }
  }

  /** "Sorts no later than" is transitive. */
  lemma {:induction false} CompareStringsTransitive(a: string, b: string, c: string)
    requires CompareStrings(a, b) <= 0 && CompareStrings(b, c) <= 0
    ensures CompareStrings(a, c) <= 0
    decreases |a|
  {
    if |a| > 0 && |b| > 0 && |c| > 0 && a[0] == b[0] == c[0] {
      CompareStringsTransitive(a[1..], b[1..], c[1..]);
    }
  }

  /** Strings whose first characters differ are ordered by them. */
  lemma FirstCharOrder(a: string, b: string)
    requires |a| > 0 && |b| > 0 && a[0] < b[0]
    ensures CompareStrings(a, b) < 0
  {
  }
}
