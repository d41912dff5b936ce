/** Small value types and text predicates shared by the other modules. */
module Util {

  datatype Option<T> = None | Some(value: T)

  /** Python's `sub in s`: `sub` occurs in `s` as a contiguous slice. */
  predicate Contains(s: string, sub: string) {
    exists i | 0 <= i <= |s| - |sub| :: OccursAt(s, sub, i)
  }

  /** `sub` occurs in `s` starting at index `i`. */
  predicate OccursAt(s: string, sub: string, i: int) {
    0 <= i <= |s| - |sub| && s[i..i + |sub|] == sub
  }

  /** Python's `s.startswith(prefix)`. */
  predicate StartsWith(s: string, prefix: string) {
    |prefix| <= |s| && s[..|prefix|] == prefix
  }

  /** Text comparison `a <= b` as SQLite's BINARY collation performs it:
      character by character, and a proper prefix sorts first. */
  predicate LexLe(a: string, b: string)
    decreases |a|
  {
    if a == [] then true
    else if b == [] then false
    else if a[0] != b[0] then a[0] < b[0]
    else LexLe(a[1..], b[1..])
  }

  /** Strict text order `a < b`. */
  predicate LexLt(a: string, b: string) {
    !LexLe(b, a)
  }

  lemma {:induction false} LexLeReflexive(a: string)
    ensures LexLe(a, a)
  {
    if a != [] { LexLeReflexive(a[1..]); }
  }

  lemma {:induction false} LexLeTotal(a: string, b: string)
    ensures LexLe(a, b) || LexLe(b, a)
    decreases |a|
  {
    if a != [] && b != [] && a[0] == b[0] { LexLeTotal(a[1..], b[1..]); }
  }

  lemma {:induction false} LexLeTransitive(a: string, b: string, c: string)
    requires LexLe(a, b) && LexLe(b, c)
    ensures LexLe(a, c)
    decreases |a|
  {
    if a != [] && b != [] && c != [] && a[0] == b[0] && b[0] == c[0] {
      LexLeTransitive(a[1..], b[1..], c[1..]);
    }
  }

  /** Comparing two texts whose first parts have the same length: the first
      parts decide unless they are equal, and then the rest decides. */
  lemma {:induction false} LexLeAppend(a1: string, a2: string, b1: string, b2: string)
    requires |a1| == |b1|
    ensures LexLe(a1 + a2, b1 + b2) == if a1 == b1 then LexLe(a2, b2) else LexLe(a1, b1)
    decreases |a1|
  {
    if a1 != [] {
      var x, y := a1 + a2, b1 + b2;
      assert x != [] && y != [];
      assert x[0] == a1[0] && y[0] == b1[0];
      assert x[1..] == a1[1..] + a2;
      assert y[1..] == b1[1..] + b2;
      if a1[0] != b1[0] {
        assert a1 != b1;
      } else {
        LexLeAppend(a1[1..], a2, b1[1..], b2);
        assert LexLe(x, y) == LexLe(a1[1..] + a2, b1[1..] + b2);
        assert LexLe(a1, b1) == LexLe(a1[1..], b1[1..]);
        assert a1 == [a1[0]] + a1[1..] && b1 == [b1[0]] + b1[1..];
        assert (a1 == b1) == (a1[1..] == b1[1..]);
      }
    } else {
      assert a1 + a2 == a2 && b1 + b2 == b2;
    }
  }

  /** A slice `w` embedded between any two texts is contained in the result. */
  lemma ContainsInfix(a: string, w: string, b: string)
    ensures Contains(a + w + b, w)
  {
    var s := a + w + b;
    assert OccursAt(s, w, |a|);
  }
}
