/** Character classes and string operations with their JavaScript meaning. */
module Text {
  import opened Wrappers

  /** JavaScript's `\s`: the WhiteSpace and LineTerminator characters. These are also
      exactly the characters `String.prototype.trim` removes. */
  predicate IsSpace(c: char)
  {
    c == ' ' || c == '\t' || c == '\n' || c == '\U{B}' || c == '\U{C}' || c == '\r'
    || c == '\U{A0}' || c == '\U{1680}' || ('\U{2000}' <= c <= '\U{200A}')
    || c == '\U{2028}' || c == '\U{2029}' || c == '\U{202F}' || c == '\U{205F}'
    || c == '\U{3000}' || c == '\U{FEFF}'
  }

  /** JavaScript's `\w` (no `u` flag): `[A-Za-z0-9_]`. */
  predicate IsWord(c: char)
  {
    ('a' <= c <= 'z') || ('A' <= c <= 'Z') || ('0' <= c <= '9') || c == '_'
  }

  /** Length of the longest all-whitespace prefix: what a greedy `\s*` consumes. */
  function SpaceRun(s: string): (n: nat)
    ensures n <= |s|
    ensures forall i | 0 <= i < n :: IsSpace(s[i])
    ensures n < |s| ==> !IsSpace(s[n])
  {
    if s != [] && IsSpace(s[0]) then 1 + SpaceRun(s[1..]) else 0
  }

  /** Length of the longest all-word-character prefix: what a greedy `\w*` consumes. */
  function WordRun(s: string): (n: nat)
    ensures n <= |s|
    ensures forall i | 0 <= i < n :: IsWord(s[i])
    ensures n < |s| ==> !IsWord(s[n])
  {
    if s != [] && IsWord(s[0]) then 1 + WordRun(s[1..]) else 0
  }

  /** Length of the longest prefix without `c`: what `[^c]*` consumes, and where the
      shortest match of a lazy `[\s\S]*?c` ends. */
  function RunWithout(c: char, s: string): (n: nat)
    ensures n <= |s|
    ensures forall i | 0 <= i < n :: s[i] != c
    ensures n < |s| ==> s[n] == c
  {
    if s != [] && s[0] != c then 1 + RunWithout(c, s[1..]) else 0
  }

  /** The first index at or after `i` that is not whitespace (or `|s|`): where a greedy
      `\s*` starting at `i` stops. */
  function SkipSpace(s: string, i: nat): (j: nat)
    requires i <= |s|
    ensures i <= j <= |s|
    ensures forall k | i <= k < j :: IsSpace(s[k])
    ensures j < |s| ==> !IsSpace(s[j])
    decreases |s| - i
  {
    if i < |s| && IsSpace(s[i]) then SkipSpace(s, i + 1) else i
  }

  /** The first index at or after `i` that is not a word character: where a greedy `\w*` stops. */
  function SkipWord(s: string, i: nat): (j: nat)
    requires i <= |s|
    ensures i <= j <= |s|
    ensures forall k | i <= k < j :: IsWord(s[k])
    ensures j < |s| ==> !IsWord(s[j])
    decreases |s| - i
  {
    if i < |s| && IsWord(s[i]) then SkipWord(s, i + 1) else i
  }

  /** The first index at or after `i` holding `c` (or `|s|`): where `[^c]*` stops. */
  function SkipUntil(c: char, s: string, i: nat): (j: nat)
    requires i <= |s|
    ensures i <= j <= |s|
    ensures forall k | i <= k < j :: s[k] != c
    ensures j < |s| ==> s[j] == c
    decreases |s| - i
  {
    if i < |s| && s[i] != c then SkipUntil(c, s, i + 1) else i
  }

  lemma {:induction false} SkipSpaceIs(s: string, i: nat, j: nat)
    requires i <= j <= |s|
    requires forall k | i <= k < j :: IsSpace(s[k])
    requires j < |s| ==> !IsSpace(s[j])
    ensures SkipSpace(s, i) == j
    decreases j - i
  {
    if i < j { SkipSpaceIs(s, i + 1, j); }
  }

  lemma {:induction false} SkipWordIs(s: string, i: nat, j: nat)
    requires i <= j <= |s|
    requires forall k | i <= k < j :: IsWord(s[k])
    requires j < |s| ==> !IsWord(s[j])
    ensures SkipWord(s, i) == j
    decreases j - i
  {
    if i < j { SkipWordIs(s, i + 1, j); }
  }

  lemma {:induction false} SkipUntilIs(c: char, s: string, i: nat, j: nat)
    requires i <= j <= |s|
    requires forall k | i <= k < j :: s[k] != c
    requires j < |s| ==> s[j] == c
    ensures SkipUntil(c, s, i) == j
    decreases j - i
  {
    if i < j { SkipUntilIs(c, s, i + 1, j); }
  }

  /** Length of the longest all-whitespace suffix. */
  function SpaceRunBack(s: string): (n: nat)
    ensures n <= |s|
    ensures forall i | |s| - n <= i < |s| :: IsSpace(s[i])
    ensures n < |s| ==> !IsSpace(s[|s| - n - 1])
  {
    if s != [] && IsSpace(s[|s| - 1]) then 1 + SpaceRunBack(s[..|s| - 1]) else 0
  }

  lemma SpaceRunIs(s: string, n: nat)
    requires n <= |s|
    requires forall i | 0 <= i < n :: IsSpace(s[i])
    requires n < |s| ==> !IsSpace(s[n])
    ensures SpaceRun(s) == n
  {
  }

  lemma SpaceRunBackIs(s: string, n: nat)
    requires n <= |s|
    requires forall i | |s| - n <= i < |s| :: IsSpace(s[i])
    requires n < |s| ==> !IsSpace(s[|s| - n - 1])
    ensures SpaceRunBack(s) == n
  {
  }

  lemma WordRunIs(s: string, n: nat)
    requires n <= |s|
    requires forall i | 0 <= i < n :: IsWord(s[i])
    requires n < |s| ==> !IsWord(s[n])
    ensures WordRun(s) == n
  {
  }

  /** `String.prototype.trim`: drop leading and trailing whitespace. */
  function Trim(s: string): (r: string)
    ensures |r| <= |s|
    ensures r == [] || (!IsSpace(r[0]) && !IsSpace(r[|r| - 1]))
    ensures SpaceRun(s) + |r| <= |s| && r == s[SpaceRun(s)..SpaceRun(s) + |r|]
    ensures forall i | SpaceRun(s) + |r| <= i < |s| :: IsSpace(s[i])
  {
    var t := s[SpaceRun(s)..];
    t[..|t| - SpaceRunBack(t)]
  }

  /** Trimming twice is trimming once. */
  lemma TrimIdempotent(s: string)
    ensures Trim(Trim(s)) == Trim(s)
  {
    var r := Trim(s);
    SpaceRunIs(r, 0);
    assert SpaceRunBack(r) == 0;
  }

  /** Trimming keeps exactly the stretch between the first and the last non-space. */
  lemma TrimIs(s: string, a: nat, b: nat)
    requires a <= b <= |s|
    requires forall i | 0 <= i < a :: IsSpace(s[i])
    requires forall i | b <= i < |s| :: IsSpace(s[i])
    requires a < b ==> !IsSpace(s[a]) && !IsSpace(s[b - 1])
    ensures Trim(s) == s[a..b]
  {
    if a < b {
      SpaceRunIs(s, a);
      var t := s[a..];
      SpaceRunBackIs(t, |s| - b);
    } else {
      SpaceRunIs(s, |s|);
    }
  }

  /** Trimming ignores any whitespace added around the text. */
  lemma TrimIgnoresPadding(pre: string, s: string, post: string)
    requires forall i | 0 <= i < |pre| :: IsSpace(pre[i])
    requires forall i | 0 <= i < |post| :: IsSpace(post[i])
    ensures Trim(pre + s + post) == Trim(s)
  {
    var x := pre + s + post;
    var r := Trim(s);
    var a := SpaceRun(s);
    TrimIs(x, |pre| + a, |pre| + a + |r|);
    assert x[|pre| + a..|pre| + a + |r|] == s[a..a + |r|];
  }

  /** `Array.prototype.join(sep)`. */
  function Join(xs: seq<string>, sep: string): string
  {
    if |xs| == 0 then "" else if |xs| == 1 then xs[0] else xs[0] + sep + Join(xs[1..], sep)
  }

  /** `pat` occurs in `s` at position `i`. */
  predicate OccursAt(pat: string, s: string, i: nat)
  {
    i + |pat| <= |s| && s[i..i + |pat|] == pat
  }

  /** `pat` occurs nowhere in `s`. */
  predicate Lacks(pat: string, s: string)
  {
    forall j: nat | j <= |s| :: !OccursAt(pat, s, j)
  }

  /** `t` is a contiguous piece of `s`. */
  predicate IsInfix(t: string, s: string)
  {
    exists i: nat | i <= |s| :: OccursAt(t, s, i)
  }

  /** `String.prototype.indexOf`: the leftmost occurrence of a non-empty `pat`. */
  function IndexOf(s: string, pat: string): (r: Option<nat>)
    requires pat != []
    ensures r.Some? ==> OccursAt(pat, s, r.value)
    ensures r.Some? ==> forall j: nat | j < r.value :: !OccursAt(pat, s, j)
    ensures r.None? ==> Lacks(pat, s)
    decreases |s|
  {
    if |s| < |pat| then None
    else if s[..|pat|] == pat then Some(0)
    else match IndexOf(s[1..], pat)
      case None =>
        assert forall j: nat | 1 <= j :: OccursAt(pat, s, j) == OccursAt(pat, s[1..], j - 1);
        None
      case Some(k) =>
        assert forall j: nat | 1 <= j :: OccursAt(pat, s, j) == OccursAt(pat, s[1..], j - 1);
        Some(k + 1)
  }

  /** Number of positions at which `pat` occurs in `s`. */
  function Occurrences(s: string, pat: string): nat
    decreases |s|
  {
    if |s| < |pat| || s == [] then 0
    else (if s[..|pat|] == pat then 1 else 0) + Occurrences(s[1..], pat)
  }

  /** `String.prototype.split(sep)` for a non-empty separator string. */
  function Split(s: string, sep: string): (parts: seq<string>)
    requires sep != []
    ensures |parts| >= 1
    decreases |s|
  {
    match IndexOf(s, sep)
    case None => [s]
    case Some(p) => [s[..p]] + Split(s[p + |sep|..], sep)
  }

  lemma JoinCons(a: string, xs: seq<string>, sep: string)
    requires |xs| >= 1
    ensures Join([a] + xs, sep) == a + sep + Join(xs, sep)
  {
    assert ([a] + xs)[1..] == xs;
  }

  /** Where `pat` occurs, the text is what precedes it, `pat`, and what follows it. */
  lemma OccursAtSplits(pat: string, s: string, p: nat)
    requires OccursAt(pat, s, p)
    ensures s == s[..p] + pat + s[p + |pat|..]
  {
    assert s == s[..p] + s[p..p + |pat|] + s[p + |pat|..];
  }

  /** `Split` at the leftmost occurrence: the piece before it, then the pieces of what
      follows it. */
  lemma SplitFound(s: string, sep: string, p: nat)
    requires sep != [] && IndexOf(s, sep) == Some(p)
    ensures p + |sep| <= |s|
    ensures Split(s, sep) == [s[..p]] + Split(s[p + |sep|..], sep)
    ensures s == s[..p] + sep + s[p + |sep|..]
  {
    OccursAtSplits(sep, s, p);
  }

  /** Splitting and re-joining with the same separator gives back the text. */
  lemma {:induction false} JoinSplit(s: string, sep: string)
    requires sep != []
    ensures Join(Split(s, sep), sep) == s
    decreases |s|
  {
    match IndexOf(s, sep)
    case None =>
    case Some(p) =>
      SplitFound(s, sep, p);
      var rest := s[p + |sep|..];
      var tail := Split(rest, sep);
      JoinSplit(rest, sep);
      JoinCons(s[..p], tail, sep);
  }

  /** No piece produced by `Split` contains the separator. */
  lemma {:induction false} SplitPartsFree(s: string, sep: string)
    requires sep != []
    ensures forall k | 0 <= k < |Split(s, sep)| :: Lacks(sep, Split(s, sep)[k])
    decreases |s|
  {
    var i := IndexOf(s, sep);
    if i.Some? {
      var p := i.value;
      var rest := s[p + |sep|..];
      SplitPartsFree(rest, sep);
      var parts := Split(s, sep);
      assert parts == [s[..p]] + Split(rest, sep);
      forall j: nat ensures !OccursAt(sep, s[..p], j) {
        if j + |sep| <= p {
          assert s[..p][j..j + |sep|] == s[j..j + |sep|];
          assert !OccursAt(sep, s, j);
        }
      }
      assert Lacks(sep, parts[0]);
    }
  }

  lemma {:induction false} OccurrencesSkip(s: string, pat: string, n: nat)
    requires pat != [] && n <= |s|
    requires forall j: nat | j < n :: !OccursAt(pat, s, j)
    ensures Occurrences(s, pat) == Occurrences(s[n..], pat)
    decreases n
  {
    if n > 0 {
      assert !OccursAt(pat, s, 0);
      forall j: nat | j < n - 1 ensures !OccursAt(pat, s[1..], j) {
        assert !OccursAt(pat, s, j + 1);
        if j + |pat| <= |s| - 1 {
          assert s[1..][j..j + |pat|] == s[j + 1..j + 1 + |pat|];
        }
      }
      OccurrencesSkip(s[1..], pat, n - 1);
      assert s[1..][n - 1..] == s[n..];
    }
  }

  /** For a separator that cannot overlap itself (its first character does not recur
      in it, as for `"},"`), `split` yields one more piece than there are occurrences. */
  lemma {:induction false} SplitCount(s: string, sep: string)
    requires sep != [] && sep[0] !in sep[1..]
    ensures |Split(s, sep)| == 1 + Occurrences(s, sep)
    decreases |s|
  {
    match IndexOf(s, sep)
    case None =>
      OccurrencesSkip(s, sep, |s|);
      assert s[|s|..] == [];
    case Some(p) =>
      SplitFound(s, sep, p);
      var rest := s[p + |sep|..];
      SplitCount(rest, sep);
      OccurrencesSkip(s, sep, p);
      OccurrencesAtFound(s[p..], sep);
      assert s[p..][|sep|..] == rest;
  }

  /** Where a separator that cannot overlap itself starts, the occurrences are that one
      and those after it. */
  lemma OccurrencesAtFound(t: string, sep: string)
    requires sep != [] && sep[0] !in sep[1..]
    requires |sep| <= |t| && t[..|sep|] == sep
    ensures Occurrences(t, sep) == 1 + Occurrences(t[|sep|..], sep)
  {
    var u := t[1..];
    assert Occurrences(t, sep) == 1 + Occurrences(u, sep);
    NoSelfOverlap(t, sep);
    OccurrencesSkip(u, sep, |sep| - 1);
    assert u[|sep| - 1..] == t[|sep|..];
  }

  /** A separator whose first character does not recur in it cannot start again
      inside an occurrence of itself. */
  lemma NoSelfOverlap(t: string, sep: string)
    requires sep != [] && sep[0] !in sep[1..]
    requires |sep| <= |t| && t[..|sep|] == sep
    ensures forall j: nat | j < |sep| - 1 :: !OccursAt(sep, t[1..], j)
  {
    forall j: nat | j < |sep| - 1 ensures !OccursAt(sep, t[1..], j) {
      assert t[1..][j] == sep[j + 1] && sep[1..][j] == sep[j + 1];
    }
  }

  /** Keep the characters satisfying `keep`. */
  function Filter(keep: char -> bool, s: string): (r: string)
    ensures |r| <= |s|
  {
    if s == [] then [] else (if keep(s[0]) then [s[0]] else []) + Filter(keep, s[1..])
  }

  lemma {:induction false} FilterConcat(keep: char -> bool, a: string, b: string)
    ensures Filter(keep, a + b) == Filter(keep, a) + Filter(keep, b)
  {
    if a == [] {
      assert a + b == b;
    } else {
      var h := if keep(a[0]) then [a[0]] else [];
      assert (a + b)[1..] == a[1..] + b;
      FilterConcat(keep, a[1..], b);
      calc {
        Filter(keep, a + b);
        h + Filter(keep, a[1..] + b);
        h + (Filter(keep, a[1..]) + Filter(keep, b));
        (h + Filter(keep, a[1..])) + Filter(keep, b);
      }
    }
  }

  lemma {:induction false} FilterNone(keep: char -> bool, s: string)
    requires forall i | 0 <= i < |s| :: !keep(s[i])
    ensures Filter(keep, s) == []
  {
    if s != [] { FilterNone(keep, s[1..]); }
  }

  lemma {:induction false} FilterAll(keep: char -> bool, s: string)
    requires forall i | 0 <= i < |s| :: keep(s[i])
    ensures Filter(keep, s) == s
  {
    if s != [] { FilterAll(keep, s[1..]); }
  }
}
