/**
 * The pieces of Python's `str` semantics that the axis renderer relies on:
 * ordering with `<`, repetition with `*`, and left alignment in an f-string.
 */
module PyStr {
  import opened Wrappers

  /**
   * Python's `a < b` on `str`: lexicographic by code point, where a proper
   * prefix comes before its extensions. (Dafny's own `<` on sequences means
   * "proper prefix", which is a different relation.)
   */
  predicate LexLess(a: string, b: string)
    decreases |a|
  {
    if |b| == 0 then false
    else if |a| == 0 then true
    else if a[0] != b[0] then a[0] < b[0]
    else LexLess(a[1..], b[1..])
  }

  lemma {:induction false} LexLessIrreflexive(a: string)
    ensures !LexLess(a, a)
    decreases |a|
  {
    if |a| > 0 {
      LexLessIrreflexive(a[1..]);
    }
  }

  lemma {:induction false} LexLessTransitive(a: string, b: string, c: string)
    requires LexLess(a, b) && LexLess(b, c)
    ensures LexLess(a, c)
    decreases |a|
  {
    if |a| > 0 && a[0] == b[0] && b[0] == c[0] {
      LexLessTransitive(a[1..], b[1..], c[1..]);
    }
  }

  /** Any two distinct strings are ordered one way or the other. */
  lemma {:induction false} LexLessTotal(a: string, b: string)
    ensures a == b || LexLess(a, b) || LexLess(b, a)
    decreases |a|
  {
    if |a| > 0 && |b| > 0 && a[0] == b[0] {
      LexLessTotal(a[1..], b[1..]);
      if a[1..] == b[1..] {
        assert a == [a[0]] + a[1..] && b == [b[0]] + b[1..];
      }
    }
  }

  /**
   * String order is not numeric order: a three-digit price sorts before a
   * two-digit one, so `"100.00" < "99.50"` holds between the strings.
   */
  lemma StringOrderIsNotNumeric()
    ensures LexLess("100.00", "99.50") && !LexLess("99.50", "100.00")
  {
  }

  /** A string strictly between two others forces those two to be ordered, and to differ. */
  lemma BetweenMeansOrdered(lo: string, t: string, hi: string)
    requires LexLess(lo, t) && LexLess(t, hi)
    ensures LexLess(lo, hi) && lo != hi && t != lo && t != hi
  {
    LexLessTransitive(lo, t, hi);
    LexLessIrreflexive(lo);
    LexLessIrreflexive(t);
  }

  /**
   * Python's `s * n`: `n` copies of `s` one after another, and the empty
   * string whenever `n <= 0`.
   */
  function Repeat(s: string, n: int): (r: string)
    ensures |r| == if n <= 0 then 0 else |s| * n
    ensures |s| == 1 ==> forall i :: 0 <= i < |r| ==> r[i] == s[0]
    decreases n
  {
    if n <= 0 then "" else s + Repeat(s, n - 1)
  }

  /** What `format(s, "<-3")` raises: "Sign not allowed in string format specifier". */
  datatype FormatError = SignNotAllowed

  /**
   * f"{s:<{width}}": `s` followed by spaces up to `width` characters; a string
   * already that long is kept whole. A negative width makes the format
   * specifier carry a sign, which Python refuses with a ValueError.
   */
  function FormatLeft(s: string, width: int): (r: Result<string, FormatError>)
    ensures r.Err? <==> width < 0
    ensures r.Ok? ==> |r.value| == (if |s| < width then width else |s|)
    ensures r.Ok? ==> r.value[..|s|] == s
    ensures r.Ok? ==> forall i :: |s| <= i < |r.value| ==> r.value[i] == ' '
  {
    if width < 0 then Err(SignNotAllowed) else Ok(s + Repeat(" ", width - |s|))
  }
}
