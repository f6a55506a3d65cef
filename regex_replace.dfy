/** `String.prototype.replace` with a global regular expression. The expressions the
    reply clean-up uses never backtrack into a different match (the character classes
    next to each other in them are disjoint), so each is a deterministic matcher anchored
    at the current position. A global replace scans left to right; at each position it
    either rewrites the match starting there and resumes after it, or copies the
    character and moves on. */
module RegexReplace {
  import opened Wrappers
  import opened Text

  /** A match at the start of the remaining text: how many characters it spans and what
      the replacement template expands to there. */
  datatype Match = Match(length: nat, replacement: string)

  /** A regular expression without empty matches, anchored at the start of a text. */
  type Matcher = f: string -> Option<Match> | forall s :: f(s).Some? ==> 1 <= f(s).value.length <= |s|
    witness (s: string) => None

  /** `x.replace(re, replacement)` where `re` carries the global flag. */
  function ReplaceAll(m: Matcher, x: string): string
    decreases |x|
  {
    if x == [] then []
    else match m(x)
      case Some(r) => r.replacement + ReplaceAll(m, x[r.length..])
      case None => [x[0]] + ReplaceAll(m, x[1..])
  }

  /** Whether a match starts at index `k` of `o`. */
  predicate MatchesAt(m: Matcher, o: string, k: nat)
    requires k <= |o|
  {
    m(o[k..]).Some?
  }

  /** No position of `o` starts a match: another global replace would change nothing. */
  predicate Settled(m: Matcher, o: string)
  {
    forall k | 0 <= k < |o| :: !MatchesAt(m, o, k)
  }

  /** Every match starts with a character satisfying `opens`. */
  ghost predicate OpensWith(m: Matcher, opens: char -> bool)
  {
    forall s | m(s).Some? :: opens(s[0])
  }

  /** Every match and its replacement agree once filtered by `keep`: a replace never
      adds, drops or alters a character `keep` accepts. */
  ghost predicate PreservesFiltered(m: Matcher, keep: char -> bool)
  {
    forall s | m(s).Some? :: Filter(keep, m(s).value.replacement) == Filter(keep, s[..m(s).value.length])
  }

  // ---------------------------------------------------------------------------------
  // Where matches can be

  /** Text without opening characters contributes no match, whatever follows it. */
  lemma SettledAppend(m: Matcher, opens: char -> bool, t: string, rest: string)
    requires OpensWith(m, opens)
    requires forall i | 0 <= i < |t| :: !opens(t[i])
    requires Settled(m, rest)
    ensures Settled(m, t + rest)
  {
    var o := t + rest;
    forall k | 0 <= k < |o| ensures !MatchesAt(m, o, k) {
      if k >= |t| {
        assert !MatchesAt(m, rest, k - |t|);
        assert o[k..] == rest[k - |t|..];
      } else {
        assert o[k..][0] == t[k];
      }
    }
  }

  /** A character at which no match starts, followed by settled text, is settled. */
  lemma SettledCons(m: Matcher, h: char, y: string)
    requires Settled(m, y) && m([h] + y).None?
    ensures Settled(m, [h] + y)
  {
    var o := [h] + y;
    forall k | 0 <= k < |o| ensures !MatchesAt(m, o, k) {
      if k > 0 {
        assert !MatchesAt(m, y, k - 1);
        assert o[k..] == y[k - 1..];
      } else {
        assert o[k..] == o;
      }
    }
  }

  /** Settled text stays settled when a prefix is dropped. */
  lemma SettledSuffix(m: Matcher, o: string, d: nat)
    requires d <= |o| && Settled(m, o)
    ensures Settled(m, o[d..])
  {
    var y := o[d..];
    forall k | 0 <= k < |y| ensures !MatchesAt(m, y, k) {
      assert !MatchesAt(m, o, d + k);
      assert y[k..] == o[d + k..];
    }
  }

  /** A character at which no match starts, then text without opening characters, then
      settled text, is settled. */
  lemma SettledAfterHead(m: Matcher, opens: char -> bool, h: char, t: string, rest: string)
    requires OpensWith(m, opens)
    requires forall i | 0 <= i < |t| :: !opens(t[i])
    requires Settled(m, rest)
    requires m([h] + (t + rest)).None?
    ensures Settled(m, [h] + (t + rest))
  {
    SettledAppend(m, opens, t, rest);
    SettledCons(m, h, t + rest);
  }

  // ---------------------------------------------------------------------------------
  // Global replace

  /** A match at the first character is rewritten and the replace resumes after it. */
  lemma ReplaceAllRewrites(m: Matcher, x: string)
    requires x != [] && m(x).Some?
    ensures ReplaceAll(m, x) == m(x).value.replacement + ReplaceAll(m, x[m(x).value.length..])
  {
  }

  lemma ReplaceAllRewritesTo(m: Matcher, x: string, n: nat, r: string)
    requires m(x) == Some(Match(n, r))
    ensures n <= |x| && ReplaceAll(m, x) == r + ReplaceAll(m, x[n..])
  {
    ReplaceAllRewrites(m, x);
  }

  /** A character at which no match starts is copied. */
  lemma ReplaceAllKeeps(m: Matcher, x: string)
    requires x != [] && m(x).None?
    ensures ReplaceAll(m, x) == [x[0]] + ReplaceAll(m, x[1..])
  {
  }

  lemma SkipOneMore(m: Matcher, x: string, n: nat)
    requires 0 < n <= |x| && !MatchesAt(m, x, n - 1)
    requires ReplaceAll(m, x) == x[..n - 1] + ReplaceAll(m, x[n - 1..])
    ensures ReplaceAll(m, x) == x[..n] + ReplaceAll(m, x[n..])
  {
    var z := x[n - 1..];
    ReplaceAllKeeps(m, z);
    assert z[1..] == x[n..];
    assert x[..n] == x[..n - 1] + [z[0]];
    AppendAssoc(x[..n - 1], [z[0]], ReplaceAll(m, x[n..]));
  }

  lemma AppendAssoc(a: string, b: string, c: string)
    ensures a + (b + c) == (a + b) + c
  {
  }

  /** Characters at which no match starts are copied through unchanged. */
  lemma {:induction false} ReplaceAllSkip(m: Matcher, x: string, n: nat)
    requires n <= |x|
    requires forall k | 0 <= k < n :: !MatchesAt(m, x, k)
    ensures ReplaceAll(m, x) == x[..n] + ReplaceAll(m, x[n..])
    decreases n
  {
    if n == 0 {
      assert x[..0] + ReplaceAll(m, x[0..]) == ReplaceAll(m, x);
    } else {
      ReplaceAllSkip(m, x, n - 1);
      SkipOneMore(m, x, n);
    }
  }

  /** Where no match starts at the first character and no opening character follows
      before index `d`, the replace copies the first `d` characters. */
  lemma KeptPrefix(m: Matcher, opens: char -> bool, x: string, d: nat)
    requires OpensWith(m, opens)
    requires 1 <= d <= |x| && m(x).None?
    requires forall i | 1 <= i < d :: !opens(x[i])
    ensures ReplaceAll(m, x) == x[..d] + ReplaceAll(m, x[d..])
  {
    forall k | 0 <= k < d ensures !MatchesAt(m, x, k) {
      if k == 0 {
        assert x[k..] == x;
      } else {
        assert x[k..][0] == x[k];
      }
    }
    ReplaceAllSkip(m, x, d);
  }

  /** A global replace that finds no match returns its input. */
  lemma ReplaceAllSettled(m: Matcher, x: string)
    requires Settled(m, x)
    ensures ReplaceAll(m, x) == x
  {
    ReplaceAllSkip(m, x, |x|);
  }

  /** Every match in `o` is replaced by exactly the text it spans. */
  predicate Fixed(m: Matcher, o: string)
  {
    forall k | 0 <= k < |o| && MatchesAt(m, o, k) ::
      m(o[k..]).value.replacement == o[k..][..m(o[k..]).value.length]
  }

  lemma FixedSuffix(m: Matcher, o: string, d: nat)
    requires d <= |o| && Fixed(m, o)
    ensures Fixed(m, o[d..])
  {
    var y := o[d..];
    forall k | 0 <= k < |y| && MatchesAt(m, y, k)
      ensures m(y[k..]).value.replacement == y[k..][..m(y[k..]).value.length]
    {
      assert y[k..] == o[d + k..];
      assert MatchesAt(m, o, d + k);
    }
  }

  /** A global replace whose every match rewrites to itself returns its input. */
  lemma {:induction false} ReplaceAllFixed(m: Matcher, x: string)
    requires Fixed(m, x)
    ensures ReplaceAll(m, x) == x
    decreases |x|
  {
    if x != [] {
      assert x[0..] == x;
      match m(x)
      case Some(r) =>
        assert MatchesAt(m, x, 0);
        FixedSuffix(m, x, r.length);
        ReplaceAllFixed(m, x[r.length..]);
        assert x == x[..r.length] + x[r.length..];
      case None =>
        FixedSuffix(m, x, 1);
        ReplaceAllFixed(m, x[1..]);
        assert x == [x[0]] + x[1..];
    }
  }

  /** What a global replace can change: if every match preserves the characters `keep`
      accepts, the whole replace does. */
  lemma {:induction false} ReplaceAllPreservesFiltered(m: Matcher, keep: char -> bool, x: string)
    requires PreservesFiltered(m, keep)
    ensures Filter(keep, ReplaceAll(m, x)) == Filter(keep, x)
    decreases |x|
  {
    if x != [] {
      match m(x)
      case Some(r) =>
        ReplaceAllPreservesFiltered(m, keep, x[r.length..]);
        ReplaceAllRewrites(m, x);
        FilterPieces(keep, r.replacement, ReplaceAll(m, x[r.length..]), x[..r.length], x[r.length..]);
        assert x[..r.length] + x[r.length..] == x;
      case None =>
        ReplaceAllPreservesFiltered(m, keep, x[1..]);
        ReplaceAllKeeps(m, x);
        FilterPieces(keep, [x[0]], ReplaceAll(m, x[1..]), x[..1], x[1..]);
        assert x[..1] + x[1..] == x;
    }
  }

  /** Texts that agree piece by piece once filtered agree once filtered. */
  lemma FilterPieces(keep: char -> bool, a: string, b: string, c: string, d: string)
    requires Filter(keep, a) == Filter(keep, c) && Filter(keep, b) == Filter(keep, d)
    ensures Filter(keep, a + b) == Filter(keep, c + d)
  {
    FilterConcat(keep, a, b);
    FilterConcat(keep, c, d);
  }

  lemma FilterSkips(keep: char -> bool, u: string, c: char, w: string)
    requires !keep(c)
    ensures Filter(keep, u + [c] + w) == Filter(keep, u + w)
  {
    FilterConcat(keep, u + [c], w);
    FilterConcat(keep, u, [c]);
    FilterConcat(keep, u, w);
    assert [c][1..] == [];
  }
}
