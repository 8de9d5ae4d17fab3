/** The string primitives the core relies on: .NET's white-space test, as used by
    string.IsNullOrWhiteSpace and the [Required] annotation, and ordinal
    (case-sensitive) substring containment, as used by string.Contains. */
module Text {
  import opened Wrappers

  /** Char.IsWhiteSpace: the Unicode space separators, line and paragraph
      separators, and the control characters U+0009..U+000D and U+0085. */
  predicate IsWhiteSpace(c: char)
  {
    || c == ' ' || ('\t' <= c <= '\r') || c == '\U{85}' || c == '\U{A0}'
    || c == '\U{1680}' || ('\U{2000}' <= c <= '\U{200A}')
    || c == '\U{2028}' || c == '\U{2029}' || c == '\U{202F}'
    || c == '\U{205F}' || c == '\U{3000}'
  }

  /** string.IsNullOrWhiteSpace, with null as None. */
  predicate IsNullOrWhiteSpace(s: Option<string>)
  {
    s.None? || forall i :: 0 <= i < |s.value| ==> IsWhiteSpace(s.value[i])
  }

  /** `t` occurs in `s` starting at position `k`. */
  predicate OccursAt(s: string, t: string, k: nat)
  {
    k + |t| <= |s| && s[k..k + |t|] == t
  }

  /** Ordinal string.Contains: tries every start position from the left. */
  function Contains(s: string, t: string): (r: bool)
    decreases |s|
    ensures r <==> exists k: nat :: OccursAt(s, t, k)
  {
    if |t| > |s| then
      false
    else if s[..|t|] == t then
      assert OccursAt(s, t, 0);
      true
    else
      var rest := Contains(s[1..], t);
      if rest then
        var k: nat :| OccursAt(s[1..], t, k);
        assert s[k + 1..k + 1 + |t|] == s[1..][k..k + |t|];
        assert OccursAt(s, t, k + 1);
        rest
      else
        forall k: nat ensures !OccursAt(s, t, k) {
          if k > 0 && OccursAt(s, t, k) {
            assert s[1..][k - 1..k - 1 + |t|] == s[k..k + |t|];
            assert OccursAt(s[1..], t, k - 1);
          }
        }
        rest
  }

  /** A string contains whatever is placed between a prefix and a suffix. */
  lemma {:induction false} ContainsAfterPrefix(prefix: string, t: string, suffix: string)
    ensures Contains(prefix + t + suffix, t)
    ensures Contains(prefix + t, t)
  {
    assert prefix + t + [] == prefix + t;
    assert OccursAt(prefix + t, t, |prefix|);
    var s := prefix + t + suffix;
    assert s[|prefix|..|prefix| + |t|] == t;
    assert OccursAt(s, t, |prefix|);
  }
}
