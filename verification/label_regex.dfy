/**
 * A hand-written matcher for the one regular-expression shape the extractor
 * uses, compiled with `re.IGNORECASE` and run with `re.search`:
 *
 *     (?:L1|L2|...)[:\-]?\s*(.+)
 *
 * where each alternative `Li` is a run of literal characters, possibly with
 * an inner `\s*` (as in `Apply\s*by`). `(.+)` and `([^\n]+)` are the same
 * thing without `re.DOTALL`: one or more characters other than `\n`.
 *
 * `Via` states what a match is (every way the pattern can match, with each
 * choice point explicit); `TriedBefore` states the order in which Python's
 * backtracking matcher tries those choices; `SearchIsLeftmostFirst` proves
 * that `Search` returns the leftmost start and, there, the first match in
 * that order.
 */
module LabelRegex {
  import opened Wrappers
  import opened Text

  /** One element of an alternative: a literal character or `\s*`. */
  datatype Atom = Lit(c: char) | Spaces

  /** One alternative of the label group, such as `Job Title` or `Apply\s*by`. */
  type Label = seq<Atom>

  /** The alternatives of the label group, in the order they are written. */
  type Pattern = seq<Label>

  /** A successful search: where the match starts, which alternative matched
      and where it ended, where the optional separator left off, and the span
      of group 1. */
  datatype Found = Found(start: nat, alt: nat, labelEnd: nat, sepEnd: nat, capStart: nat, capEnd: nat)

  predicate IsAsciiLower(c: char) { 'a' <= c <= 'z' }

  /** The optional separator class `[:\-]`. */
  predicate IsSep(c: char) { c == ':' || c == '-' }

  /** A text character `c` matches the pattern character `l` under
      `re.IGNORECASE` on a `str` pattern. Pattern letters are kept in lower
      case; besides the ASCII capitals, Python equates four non-ASCII letters
      with ASCII ones: U+0130 and U+0131 with `i`, U+017F with `s` and U+212A
      with `k`. */
  predicate CharMatches(c: char, l: char): (r: bool)
    ensures c == l ==> r
    ensures !IsAsciiLower(l) ==> (r <==> c == l)
    ensures IsAsciiLower(l) && c as int < 128 ==> (r <==> c == l || c as int == l as int - 32)
  {
    if IsAsciiLower(l) then
      || c == l
      || c as int == l as int - 32
      || (l == 'i' && (c == '\U{130}' || c == '\U{131}'))
      || (l == 's' && c == '\U{17F}')
      || (l == 'k' && c == '\U{212A}')
    else c == l
  }

  /** A letter of the pattern never matches white space. */
  lemma LetterIsNotSpace(c: char, l: char)
    requires IsAsciiLower(l) && CharMatches(c, l)
    ensures !IsSpace(c)
  {
  }

  /** The literal atoms spelling `s`. */
  function Word(s: string): (lab: Label)
    ensures |lab| == |s|
  {
    seq(|s|, x requires 0 <= x < |s| => Lit(s[x]))
  }

  /** A word has no `\s*`, so it is well formed. */
  lemma WordWellFormed(s: string)
    ensures WellFormed(Word(s))
  {
  }

  /** Every inner `\s*` is followed by a letter, so a greedy `\s*` inside a
      label never has to give characters back. */
  predicate WellFormed(lab: Label) {
    forall x :: 0 <= x < |lab| && lab[x].Spaces? ==>
      x + 1 < |lab| && lab[x + 1].Lit? && IsAsciiLower(lab[x + 1].c)
  }

  predicate PatternWellFormed(pat: Pattern) {
    forall a :: 0 <= a < |pat| ==> WellFormed(pat[a])
  }

  lemma WellFormedTail(lab: Label)
    requires lab != [] && WellFormed(lab)
    ensures WellFormed(lab[1..])
  {
    forall x | 0 <= x < |lab[1..]| && lab[1..][x].Spaces?
      ensures x + 1 < |lab[1..]| && lab[1..][x + 1].Lit? && IsAsciiLower(lab[1..][x + 1].c)
    {
      assert lab[1..][x] == lab[x + 1];
    }
  }

  // ---------------------------------------------------------------------------
  // What a match is
  // ---------------------------------------------------------------------------

  /** The alternative `lab` can match `t[i..j]`. */
  ghost predicate LabelMatchesTo(t: string, i: nat, lab: Label, j: nat)
    decreases |lab|
  {
    i <= |t| &&
    if lab == [] then j == i
    else match lab[0]
      case Lit(c) => i < |t| && CharMatches(t[i], c) && LabelMatchesTo(t, i + 1, lab[1..], j)
      case Spaces => exists k: nat :: i <= k <= |t| && AllSpace(t, i, k) && LabelMatchesTo(t, k, lab[1..], j)
  }

  /** `\s*(.+)` can match with `\s*` consuming `t[k..p]` and group 1 starting at `p`. */
  ghost predicate CanCaptureFrom(t: string, k: nat, p: nat) {
    k <= p < |t| && AllSpace(t, k, p) && t[p] != '\n'
  }

  /** The first `\n` at or after `p`, or the end of the text. */
  function LineEnd(t: string, p: nat): (e: nat)
    requires p <= |t|
    ensures p <= e <= |t|
    ensures forall x :: p <= x < e ==> t[x] != '\n'
    ensures e == |t| || t[e] == '\n'
    decreases |t| - p
  {
    if p == |t| || t[p] == '\n' then p else LineEnd(t, p + 1)
  }

  /** The pattern matches at `i` by alternative `a` ending at `j`, the
      separator leaving off at `k`, `\s*` consuming `t[k..p]` and group 1
      being `t[p..e]`. */
  ghost predicate Via(t: string, pat: Pattern, i: nat, a: nat, j: nat, k: nat, p: nat, e: nat) {
    && a < |pat|
    && LabelMatchesTo(t, i, pat[a], j)
    && (k == j || (k == j + 1 && j < |t| && IsSep(t[j])))
    && CanCaptureFrom(t, k, p)
    && p < e <= LineEnd(t, p)
  }

  /** Python's backtracking matcher tries the choices `(a, k, p, e)` before
      `(a', k', p', e')`: earlier alternative first, then the separator taken
      before it is skipped, then the longer `\s*`, then the longer group. */
  predicate TriedBefore(a: nat, k: nat, p: nat, e: nat, a': nat, k': nat, p': nat, e': nat) {
    || a < a'
    || (a == a' && k > k')
    || (a == a' && k == k' && p > p')
    || (a == a' && k == k' && p == p' && e > e')
  }

  // ---------------------------------------------------------------------------
  // The matcher
  // ---------------------------------------------------------------------------

  /** Where alternative `lab` ends when matched at `i`, with `\s*` greedy. */
  function LabelEnd(t: string, i: nat, lab: Label): (r: Option<nat>)
    requires i <= |t|
    ensures r.Some? ==> i <= r.value <= |t|
    decreases |lab|
  {
    if lab == [] then Some(i)
    else match lab[0]
      case Lit(c) => if i < |t| && CharMatches(t[i], c) then LabelEnd(t, i + 1, lab[1..]) else None
      case Spaces => LabelEnd(t, SpaceRunEnd(t, i), lab[1..])
  }

  lemma {:induction false} LabelEndSound(t: string, i: nat, lab: Label)
    requires i <= |t| && LabelEnd(t, i, lab).Some?
    ensures LabelMatchesTo(t, i, lab, LabelEnd(t, i, lab).value)
    decreases |lab|
  {
    if lab != [] {
      match lab[0]
      case Lit(c) => LabelEndSound(t, i + 1, lab[1..]);
      case Spaces =>
        var k := SpaceRunEnd(t, i);
        LabelEndSound(t, k, lab[1..]);
    }
  }

  lemma {:induction false} LabelEndComplete(t: string, i: nat, lab: Label, j: nat)
    requires WellFormed(lab) && LabelMatchesTo(t, i, lab, j)
    ensures LabelEnd(t, i, lab) == Some(j)
    decreases |lab|
  {
    if lab != [] {
      WellFormedTail(lab);
      match lab[0]
      case Lit(c) => LabelEndComplete(t, i + 1, lab[1..], j);
      case Spaces =>
        var k: nat :| i <= k <= |t| && AllSpace(t, i, k) && LabelMatchesTo(t, k, lab[1..], j);
        var w := SpaceRunEnd(t, i);
        assert lab[1] == lab[1..][0];
        LetterIsNotSpace(t[k], lab[1].c);
        assert k == w by {
          assert !IsSpace(t[k]);
          assert w == |t| || !IsSpace(t[w]);
        }
        LabelEndComplete(t, k, lab[1..], j);
    }
  }

  /** Scanning down from `p`, the last place group 1 can start. */
  function LastCaptureStart(t: string, k: nat, p: nat): (r: Option<nat>)
    requires k <= p <= |t| && AllSpace(t, k, p)
    ensures r.Some? ==> k <= r.value <= p && CanCaptureFrom(t, k, r.value)
    ensures r.Some? ==> forall q :: r.value < q <= p ==> q == |t| || t[q] == '\n'
    ensures r.None? ==> forall q :: k <= q <= p ==> q == |t| || t[q] == '\n'
    decreases p - k
  {
    if p < |t| && t[p] != '\n' then Some(p)
    else if p == k then None
    else LastCaptureStart(t, k, p - 1)
  }

  /** Where group 1 starts after `\s*` starting at `k`: the greedy `\s*`
      gives back characters only until `.+` can match. */
  function CaptureStart(t: string, k: nat): (r: Option<nat>)
    requires k <= |t|
    ensures r.Some? ==> CanCaptureFrom(t, k, r.value)
    ensures r.Some? ==> forall q: nat :: CanCaptureFrom(t, k, q) ==> q <= r.value
    ensures r.None? ==> forall q: nat :: !CanCaptureFrom(t, k, q)
  {
    var w := SpaceRunEnd(t, k);
    var r := LastCaptureStart(t, k, w);
    assert forall q: nat :: CanCaptureFrom(t, k, q) ==> q <= w by {
      forall q: nat | CanCaptureFrom(t, k, q) ensures q <= w {
        assert w == |t| || !IsSpace(t[w]);
      }
    }
    r
  }

  /** `[:\-]?\s*` after the label: the separator is taken when the rest can
      still match, otherwise it is given back. Returns `(k, p)`. */
  function AfterLabel(t: string, j: nat): (r: Option<(nat, nat)>)
    requires j <= |t|
    ensures r.Some? ==> var (k, p) := r.value;
      && (k == j || (k == j + 1 && j < |t| && IsSep(t[j])))
      && CanCaptureFrom(t, k, p)
  {
    if j < |t| && IsSep(t[j]) && CaptureStart(t, j + 1).Some? then
      Some((j + 1, CaptureStart(t, j + 1).value))
    else match CaptureStart(t, j)
      case Some(p) => Some((j, p))
      case None => None
  }

  lemma AfterLabelFirst(t: string, j: nat, k: nat, p: nat)
    requires j <= |t|
    requires k == j || (k == j + 1 && j < |t| && IsSep(t[j]))
    requires CanCaptureFrom(t, k, p)
    ensures AfterLabel(t, j).Some?
    ensures var (k', p') := AfterLabel(t, j).value; k' > k || (k' == k && p' >= p)
  {
  }

  /** Tries alternative `pat[a]` alone at position `i`. */
  function TryAlternative(t: string, pat: Pattern, i: nat, a: nat): (r: Option<Found>)
    requires i <= |t| && a < |pat|
    ensures r.Some? ==> r.value.start == i && r.value.alt == a
    ensures r.Some? ==> r.value.sepEnd <= r.value.capStart < r.value.capEnd <= |t|
    ensures r.Some? ==> t[r.value.capStart] != '\n' && r.value.capEnd == LineEnd(t, r.value.capStart)
  {
    match LabelEnd(t, i, pat[a])
    case None => None
    case Some(j) =>
      match AfterLabel(t, j)
      case None => None
      case Some((k, p)) => Some(Found(i, a, j, k, p, LineEnd(t, p)))
  }

  /** Tries the alternatives `pat[a..]` at position `i`, in order. */
  function MatchAt(t: string, pat: Pattern, i: nat, a: nat): (r: Option<Found>)
    requires i <= |t| && a <= |pat|
    ensures r.Some? ==> r.value.start == i && a <= r.value.alt
    ensures r.Some? ==> r.value.sepEnd <= r.value.capStart < r.value.capEnd <= |t|
    ensures r.Some? ==> t[r.value.capStart] != '\n' && r.value.capEnd == LineEnd(t, r.value.capStart)
    decreases |pat| - a
  {
    if a == |pat| then None
    else match TryAlternative(t, pat, i, a)
      case Some(f) => Some(f)
      case None => MatchAt(t, pat, i, a + 1)
  }

  /** `re.search` from position `i` on. */
  function SearchFrom(t: string, pat: Pattern, i: nat): (r: Option<Found>)
    requires i <= |t|
    ensures r.Some? ==> i <= r.value.start && r.value.sepEnd <= r.value.capStart < r.value.capEnd <= |t|
    ensures r.Some? ==> t[r.value.capStart] != '\n' && r.value.capEnd == LineEnd(t, r.value.capStart)
    decreases |t| - i
  {
    match MatchAt(t, pat, i, 0)
    case Some(f) => Some(f)
    case None => if i == |t| then None else SearchFrom(t, pat, i + 1)
  }

  /** `pattern.search(t)`. */
  function Search(t: string, pat: Pattern): (r: Option<Found>)
    ensures r.Some? ==> r.value.sepEnd <= r.value.capStart < r.value.capEnd <= |t|
    ensures r.Some? ==> t[r.value.capStart] != '\n' && r.value.capEnd == LineEnd(t, r.value.capStart)
  {
    SearchFrom(t, pat, 0)
  }

  /** `m.group(1)` of `pattern.search(t)`, or `None` when nothing matched. */
  function Group1(t: string, pat: Pattern): (r: Option<string>)
    ensures r.Some? ==> r.value != [] && r.value[0] != '\n' && '\n' !in r.value
  {
    match Search(t, pat)
    case None => None
    case Some(f) =>
      assert forall x :: 0 <= x < f.capEnd - f.capStart ==> t[f.capStart..f.capEnd][x] == t[f.capStart + x];
      Some(t[f.capStart..f.capEnd])
  }

  // ---------------------------------------------------------------------------
  // The matcher implements Python's semantics
  // ---------------------------------------------------------------------------

  /** The match `f` is a match, and no choice at its start is tried before it. */
  ghost predicate FirstAt(t: string, pat: Pattern, f: Found) {
    && Via(t, pat, f.start, f.alt, f.labelEnd, f.sepEnd, f.capStart, f.capEnd)
    && f.capEnd == LineEnd(t, f.capStart)
    && forall a: nat, j: nat, k: nat, p: nat, e: nat :: Via(t, pat, f.start, a, j, k, p, e) ==>
         !TriedBefore(a, k, p, e, f.alt, f.sepEnd, f.capStart, f.capEnd)
  }

  /** Nothing matches at `i`. */
  ghost predicate NoMatchAt(t: string, pat: Pattern, i: nat) {
    forall a: nat, j: nat, k: nat, p: nat, e: nat :: !Via(t, pat, i, a, j, k, p, e)
  }

  /** One alternative on its own: what `TryAlternative` finds is a match, and
      the first one Python tries with that alternative. */
  lemma TryAlternativeFirst(t: string, pat: Pattern, i: nat, a: nat)
    requires i <= |t| && a < |pat| && WellFormed(pat[a])
    ensures TryAlternative(t, pat, i, a).None? ==>
      forall j: nat, k: nat, p: nat, e: nat :: !Via(t, pat, i, a, j, k, p, e)
    ensures TryAlternative(t, pat, i, a).Some? ==> var f := TryAlternative(t, pat, i, a).value;
      && Via(t, pat, i, a, f.labelEnd, f.sepEnd, f.capStart, f.capEnd)
      && forall j: nat, k: nat, p: nat, e: nat :: Via(t, pat, i, a, j, k, p, e) ==>
           !TriedBefore(a, k, p, e, a, f.sepEnd, f.capStart, f.capEnd)
  {
    forall j: nat, k: nat, p: nat, e: nat | Via(t, pat, i, a, j, k, p, e)
      ensures LabelEnd(t, i, pat[a]) == Some(j)
      ensures AfterLabel(t, j).Some?
      ensures var (k', p') := AfterLabel(t, j).value; k' > k || (k' == k && p' >= p)
    {
      LabelEndComplete(t, i, pat[a], j);
      AfterLabelFirst(t, j, k, p);
    }
    if LabelEnd(t, i, pat[a]).Some? {
      LabelEndSound(t, i, pat[a]);
    }
  }

  /** No result from `MatchAt` means that no alternative from `a0` on matches. */
  lemma {:induction false} MatchAtNone(t: string, pat: Pattern, i: nat, a0: nat)
    requires i <= |t| && a0 <= |pat| && PatternWellFormed(pat)
    requires MatchAt(t, pat, i, a0).None?
    ensures forall a: nat, j: nat, k: nat, p: nat, e: nat :: a0 <= a ==> !Via(t, pat, i, a, j, k, p, e)
    decreases |pat| - a0
  {
    if a0 < |pat| {
      assert TryAlternative(t, pat, i, a0).None?;
      TryAlternativeFirst(t, pat, i, a0);
      MatchAtNone(t, pat, i, a0 + 1);
    }
  }

  /** A result from `MatchAt` is a match, and no match with an alternative
      from `a0` on is tried before it. */
  lemma {:induction false} MatchAtSome(t: string, pat: Pattern, i: nat, a0: nat)
    requires i <= |t| && a0 <= |pat| && PatternWellFormed(pat)
    requires MatchAt(t, pat, i, a0).Some?
    ensures var f := MatchAt(t, pat, i, a0).value;
      && Via(t, pat, i, f.alt, f.labelEnd, f.sepEnd, f.capStart, f.capEnd)
      && forall a: nat, j: nat, k: nat, p: nat, e: nat :: a0 <= a && Via(t, pat, i, a, j, k, p, e) ==>
           !TriedBefore(a, k, p, e, f.alt, f.sepEnd, f.capStart, f.capEnd)
    decreases |pat| - a0
  {
    TryAlternativeFirst(t, pat, i, a0);
    if TryAlternative(t, pat, i, a0).None? {
      assert MatchAt(t, pat, i, a0) == MatchAt(t, pat, i, a0 + 1);
      MatchAtSome(t, pat, i, a0 + 1);
    }
  }

  /** `MatchAt` gives the first match Python tries at `i` among the
      alternatives from `a0` on, and no result only when there is none. */
  lemma MatchAtFirst(t: string, pat: Pattern, i: nat, a0: nat)
    requires i <= |t| && a0 <= |pat| && PatternWellFormed(pat)
    ensures MatchAt(t, pat, i, a0).Some? ==> var f := MatchAt(t, pat, i, a0).value;
      && Via(t, pat, i, f.alt, f.labelEnd, f.sepEnd, f.capStart, f.capEnd)
      && forall a: nat, j: nat, k: nat, p: nat, e: nat :: a0 <= a && Via(t, pat, i, a, j, k, p, e) ==>
           !TriedBefore(a, k, p, e, f.alt, f.sepEnd, f.capStart, f.capEnd)
    ensures MatchAt(t, pat, i, a0).None? ==>
      forall a: nat, j: nat, k: nat, p: nat, e: nat :: a0 <= a ==> !Via(t, pat, i, a, j, k, p, e)
  {
    if MatchAt(t, pat, i, a0).Some? {
      MatchAtSome(t, pat, i, a0);
    } else {
      MatchAtNone(t, pat, i, a0);
    }
  }


  lemma NoMatchBeyondEnd(t: string, pat: Pattern, i: nat)
    requires |t| < i
    ensures NoMatchAt(t, pat, i)
  {
  }

  /** What `SearchFrom` reports is what `MatchAt` found at its start. */
  lemma {:induction false} SearchFromReports(t: string, pat: Pattern, i0: nat)
    requires i0 <= |t|
    ensures SearchFrom(t, pat, i0).Some? ==> var f := SearchFrom(t, pat, i0).value;
      f.start <= |t| && MatchAt(t, pat, f.start, 0) == Some(f)
    decreases |t| - i0
  {
    if MatchAt(t, pat, i0, 0).None? && i0 < |t| {
      SearchFromReports(t, pat, i0 + 1);
    }
  }

  /** `SearchFrom` stops no later than any position where `MatchAt` succeeds. */
  lemma {:induction false} SearchFromFinds(t: string, pat: Pattern, i0: nat, i: nat)
    requires i0 <= i <= |t| && MatchAt(t, pat, i, 0).Some?
    ensures SearchFrom(t, pat, i0).Some? && SearchFrom(t, pat, i0).value.start <= i
    decreases i - i0
  {
    var here := MatchAt(t, pat, i0, 0);
    if here.Some? {
      assert SearchFrom(t, pat, i0) == here;
    } else {
      assert i0 < i;
      assert SearchFrom(t, pat, i0) == SearchFrom(t, pat, i0 + 1);
      SearchFromFinds(t, pat, i0 + 1, i);
    }
  }

  /** Nothing matches at a position where `MatchAt` finds nothing. */
  lemma NoMatchWhereMatchAtFails(t: string, pat: Pattern, i: nat)
    requires PatternWellFormed(pat)
    requires i <= |t| ==> MatchAt(t, pat, i, 0).None?
    ensures NoMatchAt(t, pat, i)
  {
    if i <= |t| {
      MatchAtFirst(t, pat, i, 0);
    } else {
      NoMatchBeyondEnd(t, pat, i);
    }
  }

  /** `Search` is `re.search`: it reports the leftmost position at which the
      pattern matches at all, and there the first match Python's backtracking
      order reaches; it reports nothing exactly when no match exists. */
  lemma SearchIsLeftmostFirst(t: string, pat: Pattern)
    requires PatternWellFormed(pat)
    ensures Search(t, pat).Some? ==> var f := Search(t, pat).value;
      && FirstAt(t, pat, f)
      && forall i: nat :: i < f.start ==> NoMatchAt(t, pat, i)
    ensures Search(t, pat).None? <==> forall i: nat :: NoMatchAt(t, pat, i)
  {
    SearchFromReports(t, pat, 0);
    if Search(t, pat).Some? {
      var f := Search(t, pat).value;
      MatchAtFirst(t, pat, f.start, 0);
      forall i: nat | i < f.start ensures NoMatchAt(t, pat, i) {
        if i <= |t| && MatchAt(t, pat, i, 0).Some? {
          SearchFromFinds(t, pat, 0, i);
          assert false;
        }
        NoMatchWhereMatchAtFails(t, pat, i);
      }
      assert !NoMatchAt(t, pat, f.start) by {
        assert Via(t, pat, f.start, f.alt, f.labelEnd, f.sepEnd, f.capStart, f.capEnd);
      }
    } else {
      forall i: nat ensures NoMatchAt(t, pat, i) {
        if i <= |t| && MatchAt(t, pat, i, 0).Some? {
          SearchFromFinds(t, pat, 0, i);
          assert false;
        }
        NoMatchWhereMatchAtFails(t, pat, i);
      }
    }
  }

  /** When nothing but newlines follows the separator that ends a label match,
      the greedy `[:\-]?` is given back and group 1 is the separator itself:
      `"Company:"` at the end of a text yields `":"`. */
  lemma SeparatorCapturedWhenNothingFollows(t: string, pat: Pattern)
    requires PatternWellFormed(pat) && Search(t, pat).Some?
    requires var j := Search(t, pat).value.labelEnd;
      j < |t| && IsSep(t[j]) && forall x :: j < x < |t| ==> t[x] == '\n'
    ensures Group1(t, pat) == Some([t[Search(t, pat).value.labelEnd]])
  {
    SearchIsLeftmostFirst(t, pat);
    var f := Search(t, pat).value;
    var j, p := f.labelEnd, f.capStart;
    assert j <= f.sepEnd <= p && t[p] != '\n';
    assert p == j;
    assert LineEnd(t, j) == j + 1 by {
      assert LineEnd(t, j + 1) == j + 1;
    }
    assert t[j..j + 1] == [t[j]];
  }

  /** A word matches any text that spells it, letter for letter up to case. */
  lemma {:induction false} WordMatches(t: string, i: nat, w: string)
    requires i + |w| <= |t|
    requires forall x :: 0 <= x < |w| ==> CharMatches(t[i + x], w[x])
    ensures LabelMatchesTo(t, i, Word(w), i + |w|)
    decreases |w|
  {
    if w != [] {
      assert Word(w)[0] == Lit(w[0]);
      assert Word(w)[1..] == Word(w[1..]);
      forall x | 0 <= x < |w[1..]| ensures CharMatches(t[i + 1 + x], w[1..][x]) {
        assert CharMatches(t[i + (x + 1)], w[x + 1]);
      }
      WordMatches(t, i + 1, w[1..]);
    }
  }

  /** There is no word boundary: wherever an alternative's word occurs and is
      followed by a character other than a newline, the search succeeds, at
      that position or earlier. */
  lemma WordFoundAnywhere(t: string, pat: Pattern, a: nat, w: string, i: nat)
    requires PatternWellFormed(pat) && a < |pat| && pat[a] == Word(w)
    requires i + |w| < |t| && t[i + |w|] != '\n'
    requires forall x :: 0 <= x < |w| ==> CharMatches(t[i + x], w[x])
    ensures Search(t, pat).Some? && Search(t, pat).value.start <= i
  {
    var j := i + |w|;
    WordMatches(t, i, w);
    assert AllSpace(t, j, j);
    assert Via(t, pat, i, a, j, j, j, j + 1);
    MatchAtFirst(t, pat, i, 0);
    SearchFromFinds(t, pat, 0, i);
  }

  /** A word's match ends right after it. */
  lemma {:induction false} WordMatchEnd(t: string, i: nat, w: string, j: nat)
    requires LabelMatchesTo(t, i, Word(w), j)
    ensures j == i + |w|
    decreases |w|
  {
    if w != [] {
      assert Word(w)[0] == Lit(w[0]);
      assert Word(w)[1..] == Word(w[1..]);
      WordMatchEnd(t, i + 1, w[1..], j);
    }
  }

  /** The greedy `\s*` skips all the white space after the label and its
      separator, newlines included; when a character other than white space
      follows, group 1 starts there and runs to the end of its line. */
  lemma CaptureSkipsWhiteSpace(t: string, pat: Pattern)
    requires PatternWellFormed(pat) && Search(t, pat).Some?
    requires SpaceRunEnd(t, Search(t, pat).value.sepEnd) < |t|
    ensures var w := SpaceRunEnd(t, Search(t, pat).value.sepEnd);
      && Search(t, pat).value.capStart == w
      && Group1(t, pat) == Some(t[w..LineEnd(t, w)])
  {
    SearchIsLeftmostFirst(t, pat);
    var f := Search(t, pat).value;
    var w := SpaceRunEnd(t, f.sepEnd);
    assert !IsSpace(t[w]);
    assert LineEnd(t, w) == LineEnd(t, w + 1);
    assert Via(t, pat, f.start, f.alt, f.labelEnd, f.sepEnd, w, LineEnd(t, w));
    assert !TriedBefore(f.alt, f.sepEnd, w, LineEnd(t, w), f.alt, f.sepEnd, f.capStart, f.capEnd);
  }

  /** The reported match starts with one of the pattern's labels. */
  lemma SearchFindsLabel(t: string, pat: Pattern)
    requires PatternWellFormed(pat) && Search(t, pat).Some?
    ensures var f := Search(t, pat).value;
      f.alt < |pat| && LabelMatchesTo(t, f.start, pat[f.alt], f.labelEnd)
  {
    SearchIsLeftmostFirst(t, pat);
  }
}
