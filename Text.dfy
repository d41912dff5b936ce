/** Python's `str.strip()` with no arguments, as the view applies it to
    the IP inputs. */
module Text {
  /** The characters `str.isspace` accepts. */
  predicate IsSpace(c: char) {
    ('\t' <= c <= '\r') || ('\U{1C}' <= c <= ' ') || c == '\U{85}' || c == '\U{A0}'
    || c == '\U{1680}' || ('\U{2000}' <= c <= '\U{200A}') || c == '\U{2028}' || c == '\U{2029}'
    || c == '\U{202F}' || c == '\U{205F}' || c == '\U{3000}'
  }

  /** The first index from `i` on that does not hold whitespace. */
  function SkipSpaces(s: string, i: nat): (j: nat)
    requires i <= |s|
    ensures i <= j <= |s|
    ensures forall k | i <= k < j :: IsSpace(s[k])
    ensures j == |s| || !IsSpace(s[j])
    decreases |s| - i
  {
    if i < |s| && IsSpace(s[i]) then SkipSpaces(s, i + 1) else i
  }

  /** The end of `s[lo..hi]` once its trailing whitespace is cut. */
  function TrimSpaces(s: string, lo: nat, hi: nat): (j: nat)
    requires lo <= hi <= |s|
    ensures lo <= j <= hi
    ensures forall k | j <= k < hi :: IsSpace(s[k])
    ensures j == lo || !IsSpace(s[j - 1])
    decreases hi
  {
    if lo < hi && IsSpace(s[hi - 1]) then TrimSpaces(s, lo, hi - 1) else hi
  }

  /** The bounds `strip` keeps: whitespace before the first and after the
      second, and whitespace at neither end of what lies between. */
  function StripSpan(s: string): (span: (nat, nat))
    ensures span.0 <= span.1 <= |s|
    ensures forall k | 0 <= k < span.0 :: IsSpace(s[k])
    ensures forall k | span.1 <= k < |s| :: IsSpace(s[k])
    ensures span.0 < span.1 ==> !IsSpace(s[span.0]) && !IsSpace(s[span.1 - 1])
    ensures span.0 == span.1 ==> span.1 == |s|
  {
    var lo := SkipSpaces(s, 0);
    (lo, TrimSpaces(s, lo, |s|))
  }

  /** `s.strip()`: empty exactly when `s` is all whitespace, and otherwise
      beginning and ending with a character that is not. */
  function Strip(s: string): (r: string)
    ensures r == [] <==> forall i | 0 <= i < |s| :: IsSpace(s[i])
    ensures r != [] ==> !IsSpace(r[0]) && !IsSpace(r[|r| - 1])
    ensures r == s[StripSpan(s).0..StripSpan(s).1]
  {
    var span := StripSpan(s);
    assert span.0 == span.1 ==> forall i | 0 <= i < |s| :: IsSpace(s[i]);
    s[span.0..span.1]
  }

  /** Stripping twice strips nothing more. */
  lemma StripIdempotent(s: string)
    ensures Strip(Strip(s)) == Strip(s)
  {
    var r := Strip(s);
    if r != [] {
      assert SkipSpaces(r, 0) == 0;
      assert TrimSpaces(r, 0, |r|) == |r|;
    }
  }
}
