/**
 * Text comparison as SQLite performs it on TEXT columns with the default
 * BINARY collation, and as Python compares `str` values: character by
 * character on code points, a proper prefix sorting before the longer
 * string. All dates and timestamps of the laboratory tables are TEXT and
 * are compared this way, so "2024-03-01 12:00" < "2024-03-01 12:00:00".
 */
module TextOrder {

  /** a <= b in lexicographic order. */
  predicate LexLe(a: string, b: string)
    decreases |a|
  {
    if a == [] then true
    else if b == [] then false
    else if a[0] != b[0] then a[0] < b[0]
    else LexLe(a[1..], b[1..])
  }

  /** a < b in lexicographic order. */
  predicate LexLt(a: string, b: string)
  {
    LexLe(a, b) && a != b
  }

  /** SQL `x BETWEEN lo AND hi`, that is `x >= lo AND x <= hi`. */
  predicate Between(x: string, lo: string, hi: string)
  {
    LexLe(lo, x) && LexLe(x, hi)
  }

  lemma {:induction false} LexLeRefl(a: string)
    ensures LexLe(a, a)
    decreases |a|
  {
    if a != [] {
      LexLeRefl(a[1..]);
    }
  }

  lemma {:induction false} LexLeAntisym(a: string, b: string)
    requires LexLe(a, b) && LexLe(b, a)
    ensures a == b
    decreases |a|
  {
    if a != [] && b != [] {
      LexLeAntisym(a[1..], b[1..]);
      assert a == [a[0]] + a[1..] && b == [b[0]] + b[1..];
    }
  }

  lemma {:induction false} LexLeTrans(a: string, b: string, c: string)
    requires LexLe(a, b) && LexLe(b, c)
    ensures LexLe(a, c)
    decreases |a|
  {
    if a != [] && b != [] && c != [] && a[0] == b[0] && b[0] == c[0] {
      LexLeTrans(a[1..], b[1..], c[1..]);
    }
  }

  lemma {:induction false} LexLeTotal(a: string, b: string)
    ensures LexLe(a, b) || LexLe(b, a)
    decreases |a|
  {
    if a != [] && b != [] && a[0] == b[0] {
      LexLeTotal(a[1..], b[1..]);
    }
  }

  /** Strict order is the complement of the reversed non-strict order. */
  lemma LexLtIffNotLe(a: string, b: string)
    ensures LexLt(a, b) <==> !LexLe(b, a)
  {
    LexLeTotal(a, b);
    if LexLe(a, b) && LexLe(b, a) {
      LexLeAntisym(a, b);
    }
    if a == b {
      LexLeRefl(a);
    }
  }

  /** A proper prefix sorts first, which is what makes a date sort before the same date with a time. */
  lemma {:induction false} PrefixIsLess(a: string, b: string)
    requires |a| < |b| && a == b[..|a|]
    ensures LexLt(a, b)
    decreases |a|
  {
    if a != [] {
      assert a[1..] == b[1..][..|a| - 1];
      PrefixIsLess(a[1..], b[1..]);
    }
  }

  lemma LexLtTransLe(a: string, b: string, c: string)
    requires LexLt(a, b) && LexLe(b, c)
    ensures LexLt(a, c)
  {
    LexLeTrans(a, b, c);
    if a == c {
      LexLeAntisym(a, b);
    }
  }
  /** Strings that agree up to position k and differ there are ordered by that character. */
  lemma {:induction false} FirstDifference(a: string, b: string, k: nat)
    requires k < |a| && k < |b| && a[..k] == b[..k] && a[k] < b[k]
    ensures LexLt(a, b)
    decreases k
  {
    if k > 0 {
      assert a[0] == a[..k][0] == b[..k][0] == b[0];
      assert a[1..][..k - 1] == a[..k][1..] == b[..k][1..] == b[1..][..k - 1];
      FirstDifference(a[1..], b[1..], k - 1);
      assert a == [a[0]] + a[1..];
    }
  }
}
