/**
 * The camel-case word splitter used to name the test subject: the matches,
 * left to right and without overlap, of the pattern
 * `[A-Z]+(?=$|[A-Z][a-z])|[A-Z]?[a-z0-9]+`, written out by hand.
 */
module CamelCase {
  import opened Wrappers

  predicate IsUpper(c: char) { 'A' <= c <= 'Z' }
  predicate IsLower(c: char) { 'a' <= c <= 'z' }
  predicate IsLowerOrDigit(c: char) { IsLower(c) || '0' <= c <= '9' }

  /** How many characters of `s`, from position `i` on, satisfy `p` in a row. */
  function RunLength(s: string, i: nat, p: char -> bool): (n: nat)
    requires i <= |s|
    ensures i + n <= |s|
    ensures forall k :: i <= k < i + n ==> p(s[k])
    ensures i + n < |s| ==> !p(s[i + n])
    decreases |s| - i
  {
    if i < |s| && p(s[i]) then 1 + RunLength(s, i + 1, p) else 0
  }

  /**
   * The length of the match that starts at `i`, 0 if none does. The first
   * alternative takes a run of capitals that ends the string, or all but the
   * last capital of a run that is followed by a lower-case letter (the last
   * capital starts the next word). Otherwise the second alternative takes an
   * optional capital and then a run of lower-case letters and digits.
   */
  function MatchAt(s: string, i: nat): (n: nat)
    requires i <= |s|
    ensures i + n <= |s|
  {
    var u := RunLength(s, i, IsUpper);
    if u > 0 && i + u == |s| then u
    else if u >= 2 && IsLower(s[i + u]) then u - 1
    else if u >= 1 && IsLowerOrDigit(s[i + 1]) then 1 + RunLength(s, i + 1, IsLowerOrDigit)
    else if u == 0 && i < |s| && IsLowerOrDigit(s[i]) then RunLength(s, i, IsLowerOrDigit)
    else 0
  }

  /**
   * Every match is a word, a lower-case letter or digit always starts one,
   * and so does a capital followed by one.
   */
  lemma MatchIsWord(s: string, i: nat)
    requires i <= |s|
    ensures MatchAt(s, i) > 0 ==> IsWord(s[i..i + MatchAt(s, i)])
    ensures i < |s| && IsLowerOrDigit(s[i]) ==> MatchAt(s, i) > 0
    ensures i + 1 < |s| && IsUpper(s[i]) && IsLowerOrDigit(s[i + 1]) ==> MatchAt(s, i) > 0
  {
    var n := MatchAt(s, i);
    var w := s[i..i + n];
    var u := RunLength(s, i, IsUpper);
    if n > 0 {
      if (u > 0 && i + u == |s|) || (u >= 2 && IsLower(s[i + u])) {
        forall k | 0 <= k < |w| ensures IsUpper(w[k]) {
          assert w[k] == s[i + k];
        }
      } else {
        forall k | 1 <= k < |w| ensures IsLowerOrDigit(w[k]) {
          assert w[k] == s[i + k];
        }
        assert w[0] == s[i];
      }
    }
  }

  /** A word: capitals only, or an optional capital followed by lower-case letters and digits. */
  predicate IsWord(w: string) {
    |w| >= 1
    && ((forall k :: 0 <= k < |w| ==> IsUpper(w[k]))
        || ((IsUpper(w[0]) || IsLowerOrDigit(w[0]))
            && (IsUpper(w[0]) ==> |w| >= 2)
            && forall k :: 1 <= k < |w| ==> IsLowerOrDigit(w[k])))
  }

  /**
   * The last match of `matchAt` in a text of length `n`, scanning from
   * position `i` left to right and resuming after each match, as a (start,
   * end) pair: the match at its start, after which no match starts. There
   * is none exactly when no match starts anywhere from `i` on.
   */
  function LastMatch(n: nat, matchAt: nat -> nat, i: nat): (r: Option<(nat, nat)>)
    requires i <= n
    requires forall p: nat :: p <= n ==> p + matchAt(p) <= n
    ensures r.None? ==> forall p: nat :: i <= p < n ==> matchAt(p) == 0
    ensures r.Some? ==> i <= r.value.0 < r.value.1 <= n && r.value.1 - r.value.0 == matchAt(r.value.0)
    ensures r.Some? ==> forall p: nat :: r.value.1 <= p < n ==> matchAt(p) == 0
    decreases n - i
  {
    if i == n then None
    else
      var m := matchAt(i);
      if m == 0 then LastMatch(n, matchAt, i + 1)
      else
        var rest := LastMatch(n, matchAt, i + m);
        if rest.None? then Some((i, i + m)) else rest
  }

  /** The pattern's matcher on `s`. */
  function Matcher(s: string): (r: nat -> nat)
    ensures forall p: nat :: p <= |s| ==> r(p) == MatchAt(s, p) && p + r(p) <= |s|
  {
    (p: nat) => if p <= |s| then MatchAt(s, p) else 0
  }

  /**
   * Where the last word of `s` lies: there is none exactly when no match
   * starts anywhere in `s`; otherwise it is the match at its start, and no
   * match starts after it.
   */
  function LastSpan(s: string): (r: Option<(nat, nat)>)
    ensures r.None? <==> forall p: nat :: p < |s| ==> MatchAt(s, p) == 0
    ensures r.Some? ==> r.value.0 < r.value.1 <= |s| && r.value.1 - r.value.0 == MatchAt(s, r.value.0)
    ensures r.Some? ==> forall p: nat :: r.value.1 <= p < |s| ==> MatchAt(s, p) == 0
    ensures r.Some? ==> forall j: nat :: j < r.value.0 ==> j + MatchAt(s, j) <= r.value.0
  {
    var matchAt := Matcher(s);
    var last := LastMatch(|s|, matchAt, 0);
    assert last.Some? ==> matchAt(last.value.0) == MatchAt(s, last.value.0);
    MatcherNested(s);
    LastMatchAfterEarlier(|s|, matchAt, 0);
    last
  }

  /** The pattern's matcher never lets a match starting inside another reach past it. */
  lemma MatcherNested(s: string)
    ensures Nested(|s|, Matcher(s))
  {
    var matchAt := Matcher(s);
    forall a: nat, j: nat | a < j < a + matchAt(a) <= |s|
      ensures j + matchAt(j) <= a + matchAt(a)
    {
      MatchNested(s, a, j);
    }
  }

  /** From position `j` inside a run, the run goes on to the same end. */
  lemma {:induction false} RunLengthFrom(s: string, i: nat, j: nat, p: char -> bool)
    requires i <= |s| && i <= j <= i + RunLength(s, i, p)
    ensures j + RunLength(s, j, p) == i + RunLength(s, i, p)
    decreases j - i
  {
    if i < j {
      RunLengthFrom(s, i + 1, j, p);
    }
  }

  /** A match that starts at a lower-case letter or digit is the run of them. */
  lemma MatchAtLowerStart(s: string, j: nat)
    requires j < |s| && IsLowerOrDigit(s[j])
    ensures MatchAt(s, j) == RunLength(s, j, IsLowerOrDigit)
  {
    assert RunLength(s, j, IsUpper) == 0;
  }

  /** Inside a run of lower-case letters and digits, the match is the rest of the run. */
  lemma MatchInsideLowerRun(s: string, start: nat, j: nat)
    requires start <= |s| && start <= j < start + RunLength(s, start, IsLowerOrDigit)
    ensures j + MatchAt(s, j) == start + RunLength(s, start, IsLowerOrDigit)
  {
    RunLengthFrom(s, start, j, IsLowerOrDigit);
    MatchAtLowerStart(s, j);
  }

  /** A match that starts inside another match ends where that one ends. */
  lemma MatchNested(s: string, a: nat, j: nat)
    requires a <= |s| && a < j < a + MatchAt(s, a)
    ensures j + MatchAt(s, j) == a + MatchAt(s, a)
  {
    var u := RunLength(s, a, IsUpper);
    if u > 0 && a + u == |s| {
      assert MatchAt(s, a) == u;
      RunLengthFrom(s, a, j, IsUpper);
    } else if u >= 2 && IsLower(s[a + u]) {
      assert MatchAt(s, a) == u - 1;
      RunLengthFrom(s, a, j, IsUpper);
      assert j + RunLength(s, j, IsUpper) == a + u < |s|;
    } else {
      var start := if u >= 1 then a + 1 else a;
      assert MatchAt(s, a) == start - a + RunLength(s, start, IsLowerOrDigit);
      MatchInsideLowerRun(s, start, j);
    }
  }

  /** No match starting inside a match of `matchAt` reaches past that match's end. */
  ghost predicate Nested(n: nat, matchAt: nat -> nat) {
    forall a: nat, j: nat :: a < j < a + matchAt(a) <= n ==> j + matchAt(j) <= a + matchAt(a)
  }

  /** Every match starting before `i` ends by `i`. */
  ghost predicate EndsBy(matchAt: nat -> nat, i: nat) {
    forall j: nat :: j < i ==> j + matchAt(j) <= i
  }

  /** After a match that starts where every earlier match has ended, every match starting before its end ends by then. */
  lemma EndsByAfterMatch(n: nat, matchAt: nat -> nat, i: nat)
    requires i + matchAt(i) <= n
    requires Nested(n, matchAt) && EndsBy(matchAt, i)
    ensures EndsBy(matchAt, i + matchAt(i))
  {
    forall j: nat | j < i + matchAt(i) ensures j + matchAt(j) <= i + matchAt(i) {
      if i < j {
        assert i < j < i + matchAt(i) <= n;
      }
    }
  }

  /**
   * With a matcher whose matches starting inside a match never reach past
   * it, no match that starts before the scan's last match reaches into it.
   */
  lemma {:induction false} LastMatchAfterEarlier(n: nat, matchAt: nat -> nat, i: nat)
    requires i <= n
    requires forall p: nat :: p <= n ==> p + matchAt(p) <= n
    requires Nested(n, matchAt) && EndsBy(matchAt, i)
    ensures var r := LastMatch(n, matchAt, i);
      r.Some? ==> EndsBy(matchAt, r.value.0)
    decreases n - i
  {
    if i < n {
      var m := matchAt(i);
      var next := if m == 0 then i + 1 else i + m;
      var rest := LastMatch(n, matchAt, next);
      assert LastMatch(n, matchAt, i) == if m == 0 || rest.Some? then rest else Some((i, next));
      if m == 0 {
        assert EndsBy(matchAt, next);
      } else {
        EndsByAfterMatch(n, matchAt, i);
      }
      LastMatchAfterEarlier(n, matchAt, next);
    }
  }

  /** A match after which no match starts and into which none reaches. */
  ghost predicate FinalMatch(n: nat, matchAt: nat -> nat, start: nat, end: nat) {
    start < end <= n && end - start == matchAt(start)
    && (forall p: nat :: end <= p < n ==> matchAt(p) == 0)
    && EndsBy(matchAt, start)
  }

  /** There is at most one final match. */
  lemma FinalMatchUnique(n: nat, matchAt: nat -> nat, a: nat, b: nat, c: nat, d: nat)
    requires FinalMatch(n, matchAt, a, b) && FinalMatch(n, matchAt, c, d)
    ensures a == c && b == d
  {
    assert a < c ==> b <= c;
    assert c < a ==> d <= a;
  }

  /**
   * The span is the only one with its properties: any match after which no
   * match starts, and into which no earlier match reaches, is the last word.
   */
  lemma LastSpanUnique(s: string, start: nat, end: nat)
    requires start < end <= |s| && end - start == MatchAt(s, start)
    requires forall p: nat :: end <= p < |s| ==> MatchAt(s, p) == 0
    requires forall j: nat :: j < start ==> j + MatchAt(s, j) <= start
    ensures LastSpan(s) == Some((start, end))
  {
    var matchAt := Matcher(s);
    assert FinalMatch(|s|, matchAt, start, end);
    var r := LastSpan(s);
    assert r.Some? by {
      assert MatchAt(s, start) > 0;
    }
    assert FinalMatch(|s|, matchAt, r.value.0, r.value.1);
    FinalMatchUnique(|s|, matchAt, start, end, r.value.0, r.value.1);
  }

  /** `words.lastOrNull()`: the text of the last word of `s`, if it has any. */
  function LastWord(s: string): (r: Option<string>)
    ensures r.None? <==> LastSpan(s).None?
    ensures r.Some? ==> r.value == s[LastSpan(s).value.0..LastSpan(s).value.1] && IsWord(r.value)
  {
    var span := LastSpan(s);
    if span.None? then None
    else
      MatchIsWord(s, span.value.0);
      Some(s[span.value.0..span.value.1])
  }

  /** A run over characters that all satisfy `p` reaches the end of the string. */
  lemma {:induction false} RunLengthToEnd(s: string, i: nat, p: char -> bool)
    requires i <= |s|
    requires forall k :: i <= k < |s| ==> p(s[k])
    ensures RunLength(s, i, p) == |s| - i
    decreases |s| - i
  {
    if i < |s| {
      RunLengthToEnd(s, i + 1, p);
    }
  }

  /**
   * When a match covers everything from `start` to the end and no match
   * before `start` reaches past it, the scan from `i` ends with that match.
   */
  lemma {:induction false} LastMatchReaches(n: nat, matchAt: nat -> nat, i: nat, start: nat)
    requires i <= start < n
    requires forall p: nat :: p <= n ==> p + matchAt(p) <= n
    requires matchAt(start) == n - start
    requires forall j: nat :: i <= j < start ==> j + matchAt(j) <= start
    ensures LastMatch(n, matchAt, i) == Some((start, n))
    decreases start - i
  {
    var m := matchAt(i);
    var next := if m == 0 then i + 1 else i + m;
    assert next <= n;
    var rest := LastMatch(n, matchAt, next);
    assert LastMatch(n, matchAt, i) == if m == 0 then rest else if rest.None? then Some((i, next)) else rest;
    if i < start {
      LastMatchReaches(n, matchAt, next, start);
    } else {
      assert rest.None?;
    }
  }

  /** A run stops before the first character that fails the test. */
  lemma RunStopsAt(s: string, i: nat, p: char -> bool, k: nat)
    requires i <= k < |s| && !p(s[k])
    ensures i + RunLength(s, i, p) <= k
  {
  }

  /** No match that starts before a capitalised word reaches into it. */
  lemma MatchStopsAtWord(s: string, start: nat, j: nat)
    requires start + 1 < |s| && IsUpper(s[start]) && IsLowerOrDigit(s[start + 1])
    requires j < start
    ensures j + MatchAt(s, j) <= start
  {
    var u := RunLength(s, j, IsUpper);
    RunStopsAt(s, j, IsUpper, start + 1);
    if j + u > start {
      assert IsUpper(s[j + 1]);
    }
    RunStopsAt(s, j + 1, IsLowerOrDigit, start);
  }

  /** A capital followed by lower-case letters or digits up to the end is matched whole. */
  lemma MatchCapitalisedTail(s: string, start: nat)
    requires start + 1 < |s| && IsUpper(s[start])
    requires forall k :: start + 1 <= k < |s| ==> IsLowerOrDigit(s[k])
    ensures MatchAt(s, start) == |s| - start
  {
    assert !IsUpper(s[start + 1]);
    assert RunLength(s, start + 1, IsUpper) == 0;
    assert RunLength(s, start, IsUpper) == 1;
    RunLengthToEnd(s, start + 1, IsLowerOrDigit);
  }

  /** A string ending in a capital followed by lower-case letters or digits has that word as its last word. */
  lemma LastWordOfCapitalisedSuffix(prefix: string, word: string)
    requires |word| >= 2 && IsUpper(word[0])
    requires forall k :: 1 <= k < |word| ==> IsLowerOrDigit(word[k])
    ensures LastWord(prefix + word) == Some(word)
  {
    var s := prefix + word;
    var start := |prefix|;
    forall k | start + 1 <= k < |s| ensures IsLowerOrDigit(s[k]) {
      assert s[k] == word[k - start];
    }
    assert s[start] == word[0];
    MatchCapitalisedTail(s, start);
    forall j: nat | j < start ensures j + MatchAt(s, j) <= start {
      MatchStopsAtWord(s, start, j);
    }
    LastMatchReaches(|s|, Matcher(s), 0, start);
    assert s[start..|s|] == word;
  }
}
