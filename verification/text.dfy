/**
 * The few Python string operations the extractor relies on: `str.isspace`
 * (which is also the `\s` class of `re` on `str` patterns), `str.strip()`,
 * the substring test `needle in haystack`, and `str.lower()` as used on a
 * URL's network location.
 */
module Text {

  /** `c.isspace()`: the ASCII blanks, the four information separators and the
      Unicode white-space characters. */
  predicate IsSpace(c: char): (r: bool)
    ensures c == ' ' || c == '\t' || c == '\n' || c == '\r' ==> r
    ensures r ==> !('0' <= c <= '9' || 'a' <= c <= 'z' || 'A' <= c <= 'Z' || c == ':' || c == '-')
  {
    || c == ' '
    || ('\t' <= c <= '\r')
    || ('\U{1C}' <= c <= '\U{1F}')
    || c == '\U{85}' || c == '\U{A0}' || c == '\U{1680}'
    || ('\U{2000}' <= c <= '\U{200A}')
    || c == '\U{2028}' || c == '\U{2029}' || c == '\U{202F}'
    || c == '\U{205F}' || c == '\U{3000}'
  }

  /** Every character of `s[i..k]` is white space. */
  predicate AllSpace(s: string, i: nat, k: nat)
    requires i <= k <= |s|
  {
    forall x :: i <= x < k ==> IsSpace(s[x])
  }

  /** The end of the run of white space that starts at `i` (what a greedy `\s*` consumes). */
  function SpaceRunEnd(s: string, i: nat): (w: nat)
    requires i <= |s|
    ensures i <= w <= |s| && AllSpace(s, i, w)
    ensures w == |s| || !IsSpace(s[w])
    decreases |s| - i
  {
    if i < |s| && IsSpace(s[i]) then SpaceRunEnd(s, i + 1) else i
  }

  /** The start of the run of white space that ends at `j`. */
  function SpaceRunStart(s: string, j: nat): (w: nat)
    requires j <= |s|
    ensures w <= j && AllSpace(s, w, j)
    ensures w == 0 || !IsSpace(s[w - 1])
  {
    if j > 0 && IsSpace(s[j - 1]) then SpaceRunStart(s, j - 1) else j
  }

  /** `s.strip()`: drops leading and trailing white space. */
  function Strip(s: string): (r: string)
    ensures |r| <= |s|
    ensures r == [] <==> AllSpace(s, 0, |s|)
    ensures r != [] ==> !IsSpace(r[0]) && !IsSpace(r[|r| - 1])
    ensures exists i :: 0 <= i <= |s| - |r| && r == s[i..i + |r|]
                        && AllSpace(s, 0, i) && AllSpace(s, i + |r|, |s|)
  {
    var i := SpaceRunEnd(s, 0);
    if i == |s| then
      assert AllSpace(s, |s|, |s|);
      []
    else
      var j := SpaceRunStart(s, |s|);
      assert !IsSpace(s[i]);
      assert AllSpace(s, 0, i) && AllSpace(s, j, |s|);
      s[i..j]
  }

  /** Stripping removes exactly the white space around a trimmed string. */
  lemma StripSurrounded(pre: string, s: string, post: string)
    requires s != [] ==> !IsSpace(s[0]) && !IsSpace(s[|s| - 1])
    requires AllSpace(pre, 0, |pre|) && AllSpace(post, 0, |post|)
    ensures Strip(pre + s + post) == s
  {
    var all := pre + s + post;
    if s != [] {
      SpaceRunEndPast(all, 0, |pre|);
      SpaceRunStartPast(all, |all|, |pre| + |s|);
      assert all[|pre|..|pre| + |s|] == s;
    } else {
      assert AllSpace(all, 0, |all|) by {
        forall x | 0 <= x < |all| ensures IsSpace(all[x]) {
          if x < |pre| { assert all[x] == pre[x]; } else { assert all[x] == post[x - |pre|]; }
        }
      }
    }
  }

  /** A run of white space ending at a non-space character ends there. */
  lemma SpaceRunEndPast(s: string, i: nat, k: nat)
    requires i <= k < |s| && AllSpace(s, i, k) && !IsSpace(s[k])
    ensures SpaceRunEnd(s, i) == k
    decreases k - i
  {
    if i < k { SpaceRunEndPast(s, i + 1, k); }
  }

  /** A run of white space starting after a non-space character starts there. */
  lemma SpaceRunStartPast(s: string, j: nat, k: nat)
    requires 0 < k <= j <= |s| && AllSpace(s, k, j) && !IsSpace(s[k - 1])
    ensures SpaceRunStart(s, j) == k
    decreases j - k
  {
    if k < j { SpaceRunStartPast(s, j - 1, k); }
  }

  /** `needle in haystack`. */
  function Contains(haystack: string, needle: string): (r: bool)
    ensures r ==> |needle| <= |haystack|
    ensures needle == [] ==> r
    decreases |haystack|
  {
    |needle| <= |haystack| &&
    (haystack[..|needle|] == needle || Contains(haystack[1..], needle))
  }

  /** `needle` occurs in `haystack` at offset `i`. */
  predicate OccursAt(haystack: string, needle: string, i: nat) {
    i + |needle| <= |haystack| && haystack[i..i + |needle|] == needle
  }

  /** The recursive substring test finds an occurrence exactly when there is one. */
  lemma {:induction false} ContainsIff(haystack: string, needle: string)
    ensures Contains(haystack, needle) <==> exists i: nat :: OccursAt(haystack, needle, i)
    decreases |haystack|
  {
    if |needle| <= |haystack| {
      if haystack[..|needle|] == needle {
        assert OccursAt(haystack, needle, 0);
      } else {
        ContainsIff(haystack[1..], needle);
        if exists i: nat :: OccursAt(haystack[1..], needle, i) {
          var i: nat :| OccursAt(haystack[1..], needle, i);
          assert haystack[i + 1..i + 1 + |needle|] == haystack[1..][i..i + |needle|];
          assert OccursAt(haystack, needle, i + 1);
        }
        if exists i: nat :: OccursAt(haystack, needle, i) {
          var i: nat :| OccursAt(haystack, needle, i);
          assert i != 0;
          assert haystack[1..][i - 1..i - 1 + |needle|] == haystack[i..i + |needle|];
          assert OccursAt(haystack[1..], needle, i - 1);
        }
      }
    }
  }

  /** `needle in prefix + needle + suffix` always holds. */
  lemma ContainsInfix(prefix: string, needle: string, suffix: string)
    ensures Contains(prefix + needle + suffix, needle)
  {
    var h := prefix + needle + suffix;
    assert h[|prefix|..|prefix| + |needle|] == needle;
    assert OccursAt(h, needle, |prefix|);
    ContainsIff(h, needle);
  }

  /** One character of `str.lower()`. ASCII capitals, KELVIN SIGN (U+212A) and
      LATIN CAPITAL LETTER I WITH DOT ABOVE (U+0130) are the only characters whose
      lower case contains an ASCII letter; every other character is kept. */
  function LowerChar(c: char): string {
    if 'A' <= c <= 'Z' then [(c as int + 32) as char]
    else if c == '\U{212A}' then "k"
    else if c == '\U{130}' then "i\U{307}"
    else [c]
  }

  /** `s.lower()` restricted as described at `LowerChar`. */
  function Lower(s: string): (r: string)
    ensures |s| <= |r|
  {
    if s == [] then [] else LowerChar(s[0]) + Lower(s[1..])
  }

  /** Lower-casing distributes over concatenation. */
  lemma {:induction false} LowerAppend(a: string, b: string)
    ensures Lower(a + b) == Lower(a) + Lower(b)
  {
    if a != [] {
      assert (a + b)[1..] == a[1..] + b;
      LowerAppend(a[1..], b);
    } else {
      assert a + b == b;
    }
  }

  /** Where every character lower-cases to one character, `str.lower()` works
      character by character. */
  lemma {:induction false} LowerPointwise(s: string)
    requires forall i :: 0 <= i < |s| ==> |LowerChar(s[i])| == 1
    ensures |Lower(s)| == |s|
    ensures forall i :: 0 <= i < |s| ==> Lower(s)[i] == LowerChar(s[i])[0]
  {
    if s != [] {
      LowerPointwise(s[1..]);
    }
  }

  /** A string with no capital letter is its own lower case. */
  lemma {:induction false} LowerUnchanged(s: string)
    requires forall i :: 0 <= i < |s| ==> LowerChar(s[i]) == [s[i]]
    ensures Lower(s) == s
  {
    if s != [] {
      LowerUnchanged(s[1..]);
      assert s == [s[0]] + s[1..];
    }
  }
}
