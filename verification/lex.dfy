/**
 The order JavaScript's `<` puts on strings: lexicographic on characters, a
 proper prefix coming before any of its extensions.
 */
module LexOrder {

  /** `a < b` on strings. */
  predicate Lt(a: string, b: string)
  {
    |b| > 0 && (|a| == 0 || a[0] < b[0] || (a[0] == b[0] && Lt(a[1..], b[1..])))
  }

  /** `a <= b` on strings. */
  predicate Le(a: string, b: string)
  {
    a == b || Lt(a, b)
  }

  /** The strict order is asymmetric, hence irreflexive. */
  lemma {:induction false} LtAsymmetric(a: string, b: string)
    requires Lt(a, b)
    ensures !Lt(b, a) && a != b
    decreases |a|
  {
    if |a| > 0 && a[0] == b[0] {
      LtAsymmetric(a[1..], b[1..]);
      assert a[1..] != b[1..];
    }
  }

  /** So `a < b` rules out `b <= a`. */
  lemma LtNotLe(a: string, b: string)
    requires Lt(a, b)
    ensures !Le(b, a)
  {
    LtAsymmetric(a, b);
  }

  /** A common prefix does not change how two strings compare. */
  lemma {:induction false} LtCommonPrefix(p: string, x: string, y: string)
    requires Lt(x, y)
    ensures Lt(p + x, p + y)
    decreases |p|
  {
    if |p| > 0 {
      assert (p + x)[1..] == p[1..] + x;
      assert (p + y)[1..] == p[1..] + y;
      LtCommonPrefix(p[1..], x, y);
    } else {
      assert p + x == x && p + y == y;
    }
  }

  /** Two strings of equal length that compare `a < b` keep that order whatever follows them. */
  lemma {:induction false} LtEqualLengthPrefix(a: string, b: string, x: string, y: string)
    requires |a| == |b| && Lt(a, b)
    ensures Lt(a + x, b + y)
    decreases |a|
  {
    assert (a + x)[0] == a[0] && (b + y)[0] == b[0];
    if a[0] == b[0] {
      assert (a + x)[1..] == a[1..] + x;
      assert (b + y)[1..] == b[1..] + y;
      LtEqualLengthPrefix(a[1..], b[1..], x, y);
    }
  }
}
