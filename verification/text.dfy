/**
 * The string primitives the scraper relies on: the character classes `\d`
 * and `\s` of JavaScript regular expressions, `String.prototype.replace` with
 * a global character-class pattern (a filter), `String.prototype.trim` and
 * `String.prototype.includes`.
 */
module Text {

  /** `\d`: the ASCII decimal digits only. */
  predicate IsDigit(c: char) {
    '0' <= c <= '9'
  }

  /**
   * `\s`, which is also what `trim` removes: the ECMAScript WhiteSpace and
   * LineTerminator code points.
   */
  predicate IsSpace(c: char) {
    || c == '\t' || c == '\n' || c == '\U{000B}' || c == '\U{000C}' || c == '\r'
    || c == ' ' || c == '\U{00A0}' || c == '\U{1680}'
    || ('\U{2000}' <= c <= '\U{200A}')
    || c == '\U{2028}' || c == '\U{2029}' || c == '\U{202F}' || c == '\U{205F}'
    || c == '\U{3000}' || c == '\U{FEFF}'
  }

  /** `\d` is exactly the ten ASCII digits. */
  lemma DigitClass(c: char)
    ensures IsDigit(c) <==> c in "0123456789"
  {
  }

  /**
   * The ASCII members of `\s` are tab, line feed, vertical tab, form feed,
   * carriage return and space; no digit is whitespace.
   */
  lemma SpaceClass(c: char)
    ensures c < '\U{0080}' ==> (IsSpace(c) <==> c in "\t\n\U{000B}\U{000C}\r ")
    ensures IsSpace(c) ==> !IsDigit(c)
  {
  }

  /** Every character of `s` satisfies `p`. */
  predicate AllSatisfy(s: string, p: char -> bool) {
    forall i :: 0 <= i < |s| ==> p(s[i])
  }

  /** No character of `s` satisfies `p`. */
  predicate NoneSatisfy(s: string, p: char -> bool) {
    forall i :: 0 <= i < |s| ==> !p(s[i])
  }

  /**
   * `s.replace(/[^K]/g, "")` for the character class `keep`: the characters
   * of `s` that `keep` accepts, in their original order.
   */
  function Filter(s: string, keep: char -> bool): (r: string)
    ensures |r| <= |s|
    ensures AllSatisfy(r, keep)
  {
    if s == [] then []
    else (if keep(s[0]) then [s[0]] else []) + Filter(s[1..], keep)
  }

  /** Filtering keeps every occurrence of a kept character and none of a dropped one. */
  lemma {:induction false} FilterCounts(s: string, keep: char -> bool, c: char)
    ensures multiset(Filter(s, keep))[c] == if keep(c) then multiset(s)[c] else 0
  {
    if s != [] {
      assert s == [s[0]] + s[1..];
      FilterCounts(s[1..], keep, c);
    }
  }

  /** Filtering distributes over concatenation, so it keeps the original order. */
  lemma {:induction false} FilterAppend(a: string, b: string, keep: char -> bool)
    ensures Filter(a + b, keep) == Filter(a, keep) + Filter(b, keep)
  {
    if a == [] {
      assert a + b == b;
    } else {
      var head := if keep(a[0]) then [a[0]] else [];
      assert (a + b)[0] == a[0];
      assert (a + b)[1..] == a[1..] + b;
      assert Filter(a + b, keep) == head + Filter(a[1..] + b, keep);
      FilterAppend(a[1..], b, keep);
      assert Filter(a, keep) == head + Filter(a[1..], keep);
      assert head + (Filter(a[1..], keep) + Filter(b, keep))
          == (head + Filter(a[1..], keep)) + Filter(b, keep);
    }
  }

  /** A string made only of kept characters is left as it is. */
  lemma {:induction false} FilterKeepsAll(s: string, keep: char -> bool)
    requires AllSatisfy(s, keep)
    ensures Filter(s, keep) == s
  {
    if s != [] {
      FilterKeepsAll(s[1..], keep);
    }
  }

  /** A string made only of dropped characters filters to the empty string. */
  lemma {:induction false} FilterDropsAll(s: string, keep: char -> bool)
    requires NoneSatisfy(s, keep)
    ensures Filter(s, keep) == []
  {
    if s != [] {
      FilterDropsAll(s[1..], keep);
    }
  }

  /** Applying the same filter twice is the same as applying it once. */
  lemma FilterIdempotent(s: string, keep: char -> bool)
    ensures Filter(Filter(s, keep), keep) == Filter(s, keep)
  {
    FilterKeepsAll(Filter(s, keep), keep);
  }

  // `AllSpace` and `NoSpace` are `AllSatisfy(s, IsSpace)` and
  // `NoneSatisfy(s, IsSpace)` written first-order: with the predicate applied
  // directly the solver can unfold `IsSpace` only where it is needed.

  /** Every character of `s` is whitespace. */
  predicate AllSpace(s: string) {
    forall i :: 0 <= i < |s| ==> IsSpace(s[i])
  }

  /** No character of `s` is whitespace. */
  predicate NoSpace(s: string) {
    forall i :: 0 <= i < |s| ==> !IsSpace(s[i])
  }

  /** The length of the run of whitespace that `s` starts with. */
  function LeadingSpaces(s: string): (n: nat)
    ensures n <= |s|
    ensures forall i :: 0 <= i < n ==> IsSpace(s[i])
    ensures n == |s| || !IsSpace(s[n])
  {
    if s != [] && IsSpace(s[0]) then 1 + LeadingSpaces(s[1..]) else 0
  }

  /** The length of the run of whitespace that `s` ends with. */
  function TrailingSpaces(s: string): (n: nat)
    ensures n <= |s|
    ensures forall i :: |s| - n <= i < |s| ==> IsSpace(s[i])
    ensures n == |s| || !IsSpace(s[|s| - n - 1])
  {
    if s != [] && IsSpace(s[|s| - 1]) then 1 + TrailingSpaces(s[..|s| - 1]) else 0
  }

  /** `trim`: `s` without its leading and trailing whitespace. */
  function Trim(s: string): (r: string)
    ensures |r| <= |s|
  {
    var rest := s[LeadingSpaces(s)..];
    rest[..|rest| - TrailingSpaces(rest)]
  }

  /**
   * `trim` only ever removes whitespace from the two ends: the input is the
   * trimmed text with a run of whitespace on either side.
   */
  lemma TrimSplits(s: string)
    ensures var k := LeadingSpaces(s);
      && k + |Trim(s)| <= |s|
      && s[k..k + |Trim(s)|] == Trim(s)
      && AllSpace(s[..k]) && AllSpace(s[k + |Trim(s)|..])
  {
    var k := LeadingSpaces(s);
    var rest := s[k..];
    var n := TrailingSpaces(rest);
    var t := rest[..|rest| - n];
    assert t == Trim(s);
    assert s[k..k + |t|] == t;
    assert AllSpace(s[..k]) by {
      forall i | 0 <= i < k ensures IsSpace(s[..k][i]) {
        assert s[..k][i] == s[i];
      }
    }
    var post := s[k + |t|..];
    assert AllSpace(post) by {
      forall i | 0 <= i < |post| ensures IsSpace(post[i]) {
        assert post[i] == rest[|rest| - n + i];
      }
    }
  }

  /** The trimmed text neither starts nor ends with whitespace. */
  lemma TrimmedEnds(s: string)
    ensures Trim(s) == [] || (!IsSpace(Trim(s)[0]) && !IsSpace(Trim(s)[|Trim(s)| - 1]))
  {
  }

  /**
   * Conversely, `trim` is determined by that split: a text with no whitespace
   * at its ends, padded on either side with whitespace, trims back to itself.
   */
  lemma {:induction false} TrimOfPadded(pre: string, t: string, post: string)
    requires AllSpace(pre) && AllSpace(post)
    requires t == [] || (!IsSpace(t[0]) && !IsSpace(t[|t| - 1]))
    ensures Trim(pre + t + post) == t
  {
    var s := pre + t + post;
    var k := LeadingSpaces(s);
    assert forall i :: 0 <= i < |pre| ==> s[i] == pre[i];
    assert forall i :: |pre| + |t| <= i < |s| ==> s[i] == post[i - |pre| - |t|];
    if t == [] {
      assert k == |s|;
    } else {
      assert s[|pre|] == t[0];
      assert k == |pre|;
      var rest := s[k..];
      assert rest == t + post;
      var n := TrailingSpaces(rest);
      assert rest[|t| - 1] == t[|t| - 1];
      assert forall i :: |t| <= i < |rest| ==> rest[i] == post[i - |t|];
      assert n == |post|;
      assert rest[..|rest| - n] == t;
    }
  }

  /** `trim` is idempotent. */
  lemma TrimIdempotent(s: string)
    ensures Trim(Trim(s)) == Trim(s)
  {
    TrimOfPadded([], Trim(s), []);
    assert [] + Trim(s) + [] == Trim(s);
  }

  /** A string with no whitespace is its own trim. */
  lemma TrimNoSpace(s: string)
    requires NoSpace(s)
    ensures Trim(s) == s
  {
  }

  /** A filter that drops all whitespace does not care whether its input was trimmed. */
  lemma FilterIgnoresTrim(s: string, keep: char -> bool)
    requires forall c :: IsSpace(c) ==> !keep(c)
    ensures Filter(Trim(s), keep) == Filter(s, keep)
  {
    TrimSplits(s);
    var k := LeadingSpaces(s);
    var t := Trim(s);
    var pre, post := s[..k], s[k + |t|..];
    assert s == pre + t + post;
    assert NoneSatisfy(pre, keep) by {
      forall i | 0 <= i < |pre| ensures !keep(pre[i]) {
        assert IsSpace(pre[i]);
      }
    }
    assert NoneSatisfy(post, keep) by {
      forall i | 0 <= i < |post| ensures !keep(post[i]) {
        assert IsSpace(post[i]);
      }
    }
    FilterAppend(pre + t, post, keep);
    FilterAppend(pre, t, keep);
    FilterDropsAll(pre, keep);
    FilterDropsAll(post, keep);
  }

  /** `sub` occurs in `s` starting at index `k`. */
  predicate OccursAt(sub: string, s: string, k: nat) {
    k + |sub| <= |s| && s[k..k + |sub|] == sub
  }

  /** `sub` is a contiguous piece of `s` (the empty string is a piece of every string). */
  ghost predicate IsSubstring(sub: string, s: string) {
    exists k: nat :: OccursAt(sub, s, k)
  }

  /** `s.includes(sub)`: case-sensitive search for `sub` at each start position in turn. */
  function Includes(s: string, sub: string): (b: bool)
    ensures b <==> IsSubstring(sub, s)
  {
    if sub <= s then
      assert OccursAt(sub, s, 0);
      true
    else if s == [] then
      false
    else
      var b := Includes(s[1..], sub);
      assert forall k: nat :: OccursAt(sub, s[1..], k) ==> OccursAt(sub, s, k + 1);
      assert forall k: nat :: OccursAt(sub, s, k) && k > 0 ==> OccursAt(sub, s[1..], k - 1);
      b
  }
}
