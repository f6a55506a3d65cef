/** The clean-up `analyzeContractWithAI` applies to the model's reply before parsing it
    (server/src/services/ai.services.ts:118-124): delete the markdown code fences and trim,
    then three global rewrites that turn near-JSON into JSON: quote bare object keys,
    put one space between a colon and a string value, and drop a comma that closes an
    object. Each regular expression is a `Matcher`; see module RegexReplace. */
module JsonRepair {
  import opened Wrappers
  import opened Text
  import opened RegexReplace

  // ---------------------------------------------------------------------------------
  // The four regular expressions

  /** "```json" with an optional newline after it, or "```" with an optional newline
      before it; the alternatives are tried in that order. Replacement: nothing. */
  function FenceAt(x: string): (r: Option<Match>)
    ensures r.Some? ==> 1 <= r.value.length <= |x|
    ensures r.Some? ==> r.value.replacement == ""
  {
    if "```json\n" <= x then Some(Match(8, ""))
    else if "```json" <= x then Some(Match(7, ""))
    else if "\n```" <= x then Some(Match(4, ""))
    else if "```" <= x then Some(Match(3, ""))
    else None
  }

  /** `{` or `,`, optional whitespace, word characters, optional whitespace, `:`.
      Replacement `$1"$2"$3`: the word characters get wrapped in double quotes. */
  function BareKeyAt(x: string): (r: Option<Match>)
    ensures r.Some? ==> 1 <= r.value.length <= |x|
  {
    if x == [] || (x[0] != '{' && x[0] != ',') then None
    else
      var a := SkipSpace(x, 1);
      if a < |x| && IsWord(x[a]) then
        var b := SkipWord(x, a);
        var c := SkipSpace(x, b);
        if c < |x| && x[c] == ':' then
          Some(Match(c + 1, x[..a] + "\"" + x[a..b] + "\"" + x[b..c + 1]))
        else None
      else None
  }

  /** `:`, optional whitespace, a double-quoted string without escapes, then one
      character other than `,` `}` `]`. Replacement `: "$1"$2`. */
  function SpacedValueAt(x: string): (r: Option<Match>)
    ensures r.Some? ==> 1 <= r.value.length <= |x|
  {
    if x == [] || x[0] != ':' then None
    else
      var a := SkipSpace(x, 1);
      if a < |x| && x[a] == '"' then
        var b := SkipUntil('"', x, a + 1);
        if b + 1 < |x| && x[b + 1] != ',' && x[b + 1] != '}' && x[b + 1] != ']' then
          Some(Match(b + 2, ": \"" + x[a + 1..b] + "\"" + [x[b + 1]]))
        else None
      else None
  }

  /** `,`, optional whitespace, `}`. Replacement `}`. */
  function TrailingCommaAt(x: string): (r: Option<Match>)
    ensures r.Some? ==> 1 <= r.value.length <= |x|
    ensures r.Some? ==> r.value.replacement == "}"
  {
    CommaBeforeAt('}', x)
  }

  /** `,`, optional whitespace, then `next`, replaced by `next` alone. */
  function CommaBeforeAt(next: char, x: string): (r: Option<Match>)
    ensures r.Some? ==> 1 <= r.value.length <= |x| && r.value.replacement == [next]
  {
    if x == [] || x[0] != ',' then None
    else
      var a := SkipSpace(x, 1);
      if a < |x| && x[a] == next then Some(Match(a + 1, [next])) else None
  }

  // ---------------------------------------------------------------------------------
  // The clean-up steps

  /** Markdown removal (ai.services.ts:118): delete every fence, then trim. */
  function StripFences(reply: string): string
  {
    Trim(ReplaceAll(FenceAt, reply))
  }

  /** Rewrite 1 (ai.services.ts:122). */
  function QuoteKeys(text: string): string
  {
    ReplaceAll(BareKeyAt, text)
  }

  /** Rewrite 2 (ai.services.ts:123). */
  function SpaceValues(text: string): string
  {
    ReplaceAll(SpacedValueAt, text)
  }

  /** Rewrite 3 (ai.services.ts:124). */
  function DropTrailingCommas(text: string): string
  {
    ReplaceAll(TrailingCommaAt, text)
  }

  /** The text handed to `JSON.parse`, and to the fallback extractor when that fails. */
  function Repaired(reply: string): string
  {
    DropTrailingCommas(SpaceValues(QuoteKeys(StripFences(reply))))
  }

  predicate KeyOpener(c: char)
  {
    c == '{' || c == ','
  }

  predicate NotQuote(c: char)
  {
    c != '"'
  }

  predicate NotSpace(c: char)
  {
    !IsSpace(c)
  }

  predicate NotCommaOrSpace(c: char)
  {
    c != ',' && !IsSpace(c)
  }

  // ---------------------------------------------------------------------------------
  // What each rewrite may change

  /** Quoting a key adds nothing but the two quotes. */
  lemma QuotingAddsOnlyQuotes(u: string, v: string, w: string)
    ensures Filter(NotQuote, u + "\"" + v + "\"" + w) == Filter(NotQuote, u + v + w)
  {
    assert u + "\"" + v + "\"" + w == u + ['"'] + (v + ['"'] + w);
    FilterSkips(NotQuote, u, '"', v + ['"'] + w);
    assert u + (v + ['"'] + w) == (u + v) + ['"'] + w;
    FilterSkips(NotQuote, u + v, '"', w);
  }

  lemma BareKeyKeepsUnquoted(x: string)
    requires BareKeyAt(x).Some?
    ensures Filter(NotQuote, BareKeyAt(x).value.replacement) == Filter(NotQuote, x[..BareKeyAt(x).value.length])
  {
    var a := SkipSpace(x, 1);
    var b := SkipWord(x, a);
    var c := SkipSpace(x, b);
    assert x[..c + 1] == x[..a] + x[a..b] + x[b..c + 1];
    QuotingAddsOnlyQuotes(x[..a], x[a..b], x[b..c + 1]);
  }

  /** Rewrite 1 only inserts double quotes: with every `"` deleted, its output is its input. */
  lemma QuoteKeysOnlyAddsQuotes(text: string)
    ensures Filter(NotQuote, QuoteKeys(text)) == Filter(NotQuote, text)
  {
    forall s | BareKeyAt(s).Some?
      ensures Filter(NotQuote, BareKeyAt(s).value.replacement) == Filter(NotQuote, s[..BareKeyAt(s).value.length])
    {
      BareKeyKeepsUnquoted(s);
    }
    ReplaceAllPreservesFiltered(BareKeyAt, NotQuote, text);
  }

  /** Normalising the gap before a string value changes only whitespace. */
  lemma SpacingAddsOnlySpace(gap: string, t: string)
    requires forall i | 0 <= i < |gap| :: IsSpace(gap[i])
    ensures Filter(NotSpace, [':'] + [' '] + t) == Filter(NotSpace, [':'] + gap + t)
  {
    FilterSkips(NotSpace, [':'], ' ', t);
    FilterConcat(NotSpace, [':'] + gap, t);
    FilterConcat(NotSpace, [':'], gap);
    FilterNone(NotSpace, gap);
    FilterConcat(NotSpace, [':'], t);
  }

  lemma SpacedValueKeepsVisible(x: string)
    requires SpacedValueAt(x).Some?
    ensures Filter(NotSpace, SpacedValueAt(x).value.replacement) == Filter(NotSpace, x[..SpacedValueAt(x).value.length])
  {
    var a := SkipSpace(x, 1);
    var b := SkipUntil('"', x, a + 1);
    var t := x[a..b + 2];
    assert t == ['"'] + x[a + 1..b] + ['"'] + [x[b + 1]];
    assert ": \"" + x[a + 1..b] + "\"" + [x[b + 1]] == [':'] + [' '] + t;
    assert x[..b + 2] == [':'] + x[1..a] + t;
    SpacingAddsOnlySpace(x[1..a], t);
  }

  /** Rewrite 2 changes whitespace only: with all whitespace deleted, its output is its input. */
  lemma SpaceValuesOnlyChangesWhitespace(text: string)
    ensures Filter(NotSpace, SpaceValues(text)) == Filter(NotSpace, text)
  {
    forall s | SpacedValueAt(s).Some?
      ensures Filter(NotSpace, SpacedValueAt(s).value.replacement) == Filter(NotSpace, s[..SpacedValueAt(s).value.length])
    {
      SpacedValueKeepsVisible(s);
    }
    ReplaceAllPreservesFiltered(SpacedValueAt, NotSpace, text);
  }

  /** The shape rewrite 2 looks for at the start of `x`: a colon, whitespace up to `a`,
      a double quote at `a`, no double quote up to the closing one at `b`, then one
      character that does not end a value. */
  predicate ValueShape(x: string, a: nat, b: nat)
  {
    1 <= a < b && b + 1 < |x| && x[0] == ':'
    && (forall k | 1 <= k < a :: IsSpace(x[k]))
    && x[a] == '"'
    && (forall k | a < k < b :: x[k] != '"')
    && x[b] == '"'
    && x[b + 1] != ',' && x[b + 1] != '}' && x[b + 1] != ']'
  }

  /** Given its break points, the match of rewrite 2 is determined: it runs through the
      character after the string, and the replacement puts exactly one space between
      the colon and the string, keeping the string's contents and that character. */
  lemma SpacedValueMatch(x: string, a: nat, b: nat)
    requires ValueShape(x, a, b)
    ensures SpacedValueAt(x) == Some(Match(b + 2, ": \"" + x[a + 1..b] + "\"" + [x[b + 1]]))
  {
    SkipSpaceIs(x, 1, a);
    SkipUntilIs('"', x, a + 1, b);
  }

  /** Rewrite 2 matches at the start of `x` exactly when `x` has the value shape. */
  lemma SpacedValueAtIff(x: string)
    ensures SpacedValueAt(x).Some? <==> exists a: nat, b: nat :: ValueShape(x, a, b)
  {
    if SpacedValueAt(x).Some? {
      var a := SkipSpace(x, 1);
      var b := SkipUntil('"', x, a + 1);
      assert ValueShape(x, a, b);
    } else if exists a: nat, b: nat :: ValueShape(x, a, b) {
      var a: nat, b: nat :| ValueShape(x, a, b);
      SpacedValueMatch(x, a, b);
    }
  }

  /** Where the value shape starts the text, rewrite 2 writes the respaced value and
      carries on after the character that follows the string. */
  lemma SpaceValuesRewrites(x: string, a: nat, b: nat)
    requires ValueShape(x, a, b)
    ensures SpaceValues(x) == ": \"" + x[a + 1..b] + "\"" + [x[b + 1]] + SpaceValues(x[b + 2..])
  {
    SpacedValueMatch(x, a, b);
    SpaceValuesStep(x, b + 2, ": \"" + x[a + 1..b] + "\"" + [x[b + 1]]);
  }

  lemma SpaceValuesStep(x: string, n: nat, r: string)
    requires SpacedValueAt(x) == Some(Match(n, r))
    ensures n <= |x| && SpaceValues(x) == r + SpaceValues(x[n..])
  {
    ReplaceAllRewritesTo(SpacedValueAt, x, n, r);
  }

  lemma TrailingCommaKeepsVisible(x: string)
    requires TrailingCommaAt(x).Some?
    ensures Filter(NotCommaOrSpace, TrailingCommaAt(x).value.replacement) == Filter(NotCommaOrSpace, x[..TrailingCommaAt(x).value.length])
  {
    var a := SkipSpace(x, 1);
    assert x[..a + 1] == x[..a] + "}";
    FilterConcat(NotCommaOrSpace, x[..a], "}");
    FilterNone(NotCommaOrSpace, x[..a]);
  }

  /** Rewrite 3 deletes only commas and whitespace: without them, its output is its input. */
  lemma DropTrailingCommasOnlyDeletes(text: string)
    ensures Filter(NotCommaOrSpace, DropTrailingCommas(text)) == Filter(NotCommaOrSpace, text)
  {
    forall s | TrailingCommaAt(s).Some?
      ensures Filter(NotCommaOrSpace, TrailingCommaAt(s).value.replacement) == Filter(NotCommaOrSpace, s[..TrailingCommaAt(s).value.length])
    {
      TrailingCommaKeepsVisible(s);
    }
    ReplaceAllPreservesFiltered(TrailingCommaAt, NotCommaOrSpace, text);
  }

  // ---------------------------------------------------------------------------------
  // Rewrite 1 leaves no key bare

  lemma BareKeyOpens()
    ensures OpensWith(BareKeyAt, KeyOpener)
  {
  }

  /** Where the attempt to match rewrite 1 at the start of `x` is decided: the first
      character after the opener that continues neither its whitespace, word,
      whitespace run. */
  function KeyEnd(x: string): (d: nat)
    requires x != []
    ensures 1 <= d <= |x|
  {
    var a := SkipSpace(x, 1);
    if a < |x| && IsWord(x[a]) then SkipSpace(x, SkipWord(x, a)) else a
  }

  /** Whether a word character follows the opener and its whitespace. */
  predicate KeyStarts(x: string)
    requires x != []
  {
    var a := SkipSpace(x, 1);
    a < |x| && IsWord(x[a])
  }

  lemma BareKeyAtKeyEnd(x: string)
    requires x != []
    ensures BareKeyAt(x).Some? <==> KeyOpener(x[0]) && KeyStarts(x) && KeyEnd(x) < |x| && x[KeyEnd(x)] == ':'
  {
  }

  /** The shape rewrite 1 looks for at the start of `x`, cut at its break points: the
      opener, whitespace up to `a`, word characters up to `b`, whitespace up to `c`,
      and a colon at `c`. */
  predicate KeyShape(x: string, a: nat, b: nat, c: nat)
  {
    1 <= a < b <= c < |x| && KeyOpener(x[0])
    && (forall k | 1 <= k < a :: IsSpace(x[k]))
    && (forall k | a <= k < b :: IsWord(x[k]))
    && (forall k | b <= k < c :: IsSpace(x[k]))
    && x[c] == ':'
  }

  /** Given its break points, the match of rewrite 1 is determined: it runs through the
      colon, and the replacement wraps the word characters in double quotes. */
  lemma BareKeyMatch(x: string, a: nat, b: nat, c: nat)
    requires KeyShape(x, a, b, c)
    ensures BareKeyAt(x) == Some(Match(c + 1, x[..a] + "\"" + x[a..b] + "\"" + x[b..c + 1]))
  {
    SkipSpaceIs(x, 1, a);
    SkipWordIs(x, a, b);
    SkipSpaceIs(x, b, c);
  }

  /** Rewrite 1 matches at the start of `x` exactly when `x` has the key shape. */
  lemma BareKeyAtIff(x: string)
    ensures BareKeyAt(x).Some? <==> exists a: nat, b: nat, c: nat :: KeyShape(x, a, b, c)
  {
    if BareKeyAt(x).Some? {
      var a := SkipSpace(x, 1);
      var b := SkipWord(x, a);
      var c := SkipSpace(x, b);
      assert KeyShape(x, a, b, c);
    } else if exists a: nat, b: nat, c: nat :: KeyShape(x, a, b, c) {
      var a: nat, b: nat, c: nat :| KeyShape(x, a, b, c);
      BareKeyMatch(x, a, b, c);
    }
  }

  lemma KeyEndNoOpener(x: string)
    requires x != []
    ensures forall i | 1 <= i < KeyEnd(x) :: !KeyOpener(x[i])
  {
  }

  lemma SkipSpacePrefix(x: string, y: string, i: nat)
    requires i <= |x| && i <= |y| && SkipSpace(x, i) < |x| && SkipSpace(x, i) < |y|
    requires forall k | i <= k <= SkipSpace(x, i) :: x[k] == y[k]
    ensures SkipSpace(y, i) == SkipSpace(x, i)
  {
    SkipSpaceIs(y, i, SkipSpace(x, i));
  }

  lemma SkipWordPrefix(x: string, y: string, i: nat)
    requires i <= |x| && i <= |y| && SkipWord(x, i) < |x| && SkipWord(x, i) < |y|
    requires forall k | i <= k <= SkipWord(x, i) :: x[k] == y[k]
    ensures SkipWord(y, i) == SkipWord(x, i)
  {
    SkipWordIs(y, i, SkipWord(x, i));
  }

  lemma KeyEndPrefix(x: string, y: string)
    requires x != [] && KeyEnd(x) < |x| && KeyEnd(x) < |y|
    requires forall i | 0 <= i <= KeyEnd(x) :: x[i] == y[i]
    ensures y != [] && KeyStarts(y) == KeyStarts(x) && KeyEnd(y) == KeyEnd(x)
  {
    SkipSpacePrefix(x, y, 1);
    if KeyStarts(x) {
      var a := SkipSpace(x, 1);
      SkipWordPrefix(x, y, a);
      SkipSpacePrefix(x, y, SkipWord(x, a));
    }
  }

  /** A match attempt of rewrite 1 reads nothing beyond its deciding character. */
  lemma BareKeyDecided(x: string, y: string)
    requires x != [] && KeyEnd(x) < |x| && KeyEnd(x) < |y|
    requires forall i | 0 <= i <= KeyEnd(x) :: x[i] == y[i]
    ensures BareKeyAt(y).None? <==> BareKeyAt(x).None?
  {
    KeyEndPrefix(x, y);
    BareKeyAtKeyEnd(x);
    BareKeyAtKeyEnd(y);
  }

  /** Rewrite 1 never changes the first character. */
  lemma QuoteKeysHead(x: string)
    requires x != []
    ensures QuoteKeys(x) != [] && QuoteKeys(x)[0] == x[0]
  {
    match BareKeyAt(x)
    case Some(m) =>
      var a := SkipSpace(x, 1);
      assert m.replacement[0] == x[..a][0];
    case None =>
  }

  /** An opener, whitespace and then a double quote never start a match. */
  lemma QuoteAfterGapNoMatch(h: char, gap: string, more: string)
    requires forall i | 0 <= i < |gap| :: IsSpace(gap[i])
    ensures BareKeyAt([h] + gap + ['"'] + more).None?
  {
    var y := [h] + gap + ['"'] + more;
    assert forall k | 1 <= k < 1 + |gap| :: y[k] == gap[k - 1];
    assert y[1 + |gap|] == '"';
    SkipSpaceIs(y, 1, 1 + |gap|);
  }

  /** A quoted key, followed by text in which no key is bare, leaves no key bare. */
  lemma QuotedKeySettled(h: char, gap: string, tail: string, rest: string)
    requires forall i | 0 <= i < |gap| :: IsSpace(gap[i])
    requires forall i | 0 <= i < |tail| :: !KeyOpener(tail[i])
    requires Settled(BareKeyAt, rest)
    ensures Settled(BareKeyAt, [h] + (gap + ['"'] + tail) + rest)
  {
    var t := gap + ['"'] + tail;
    forall i | 0 <= i < |t| ensures !KeyOpener(t[i]) {
      if i < |gap| {
        assert t[i] == gap[i];
      } else if i > |gap| {
        assert t[i] == tail[i - |gap| - 1];
      }
    }
    assert [h] + (t + rest) == [h] + gap + ['"'] + (tail + rest);
    QuoteAfterGapNoMatch(h, gap, tail + rest);
    BareKeyOpens();
    SettledAfterHead(BareKeyAt, KeyOpener, h, t, rest);
    assert [h] + t + rest == [h] + (t + rest);
  }

  /** The replacement of rewrite 1: the opener, its whitespace, a quote, then text
      without openers. */
  lemma KeyReplacementShape(x: string) returns (gap: string, tail: string)
    requires BareKeyAt(x).Some?
    ensures BareKeyAt(x).value.replacement == [x[0]] + (gap + ['"'] + tail)
    ensures forall i | 0 <= i < |gap| :: IsSpace(gap[i])
    ensures forall i | 0 <= i < |tail| :: !KeyOpener(tail[i])
  {
    var a := SkipSpace(x, 1);
    var b := SkipWord(x, a);
    var c := SkipSpace(x, b);
    gap := x[1..a];
    var key, after := x[a..b], x[b..c + 1];
    tail := key + ['"'] + after;
    assert x[..a] == [x[0]] + gap;
    assert forall i | 0 <= i < |key| :: IsWord(key[i]);
    assert forall i | 0 <= i < |after| :: !KeyOpener(after[i]) by {
      forall i | 0 <= i < |after| ensures !KeyOpener(after[i]) {
        assert after[i] == x[b + i];
      }
    }
    forall i | 0 <= i < |tail| ensures !KeyOpener(tail[i]) {
      if i < |key| {
        assert tail[i] == key[i];
      } else if i > |key| {
        assert tail[i] == after[i - |key| - 1];
      }
    }
  }

  lemma RewrittenKeySettled(x: string, rest: string)
    requires BareKeyAt(x).Some?
    requires Settled(BareKeyAt, rest)
    ensures Settled(BareKeyAt, BareKeyAt(x).value.replacement + rest)
  {
    var gap, tail := KeyReplacementShape(x);
    QuotedKeySettled(x[0], gap, tail, rest);
  }

  /** Where `{` or `,` starts no match, rewriting what follows does not create one: the
      rewrite copies everything up to the character that decided the failure. */
  lemma KeptHeadNoMatch(x: string)
    requires x != [] && BareKeyAt(x).None?
    ensures BareKeyAt(QuoteKeys(x)).None?
  {
    var o := QuoteKeys(x);
    QuoteKeysHead(x);
    if KeyOpener(x[0]) {
      var d := KeyEnd(x);
      KeyEndNoOpener(x);
      BareKeyOpens();
      KeptPrefix(BareKeyAt, KeyOpener, x, d);
      if d == |x| {
        assert o == x[..d] + ReplaceAll(BareKeyAt, []);
        assert o == x;
      } else {
        QuoteKeysHead(x[d..]);
        CopiedThrough(x, d, QuoteKeys(x[d..]), o);
        BareKeyDecided(x, o);
      }
    }
  }

  /** Rewrite 1 leaves no key unquoted: nowhere in its output does `{` or `,`, optional
      whitespace, word characters, optional whitespace and `:` follow each other. */
  lemma {:induction false} NoBareKeyRemains(text: string)
    ensures Settled(BareKeyAt, QuoteKeys(text))
    decreases |text|
  {
    if text != [] {
      match BareKeyAt(text)
      case Some(m) =>
        NoBareKeyRemains(text[m.length..]);
        RewrittenKeySettled(text, QuoteKeys(text[m.length..]));
      case None =>
        NoBareKeyRemains(text[1..]);
        ReplaceAllKeeps(BareKeyAt, text);
        KeptHeadNoMatch(text);
        SettledCons(BareKeyAt, text[0], QuoteKeys(text[1..]));
    }
  }

  /** Rewrite 1 is idempotent. */
  lemma QuoteKeysIdempotent(text: string)
    ensures QuoteKeys(QuoteKeys(text)) == QuoteKeys(text)
  {
    NoBareKeyRemains(text);
    ReplaceAllSettled(BareKeyAt, QuoteKeys(text));
  }

  // ---------------------------------------------------------------------------------
  // Rewrite 3 leaves no comma before a closing brace, unless elements were empty

  /** The pattern `,\s*,`: a comma, optional whitespace and a second comma, as left by an
      empty array or object element. */
  function EmptyElementAt(x: string): (r: Option<Match>)
    ensures r.Some? ==> 1 <= r.value.length <= |x|
    ensures r.Some? ==> r.value.replacement == ","
  {
    CommaBeforeAt(',', x)
  }

  predicate IsComma(c: char)
  {
    c == ','
  }

  lemma TrailingCommaOpens()
    ensures OpensWith(TrailingCommaAt, IsComma)
  {
  }

  /** Text that agrees with `x` up to the first character after the comma's whitespace
      starts no match of rewrite 3 if `x` starts none. */
  lemma TrailingCommaDecided(x: string, y: string)
    requires x != [] && x[0] == ',' && TrailingCommaAt(x).None?
    requires SkipSpace(x, 1) < |x| && SkipSpace(x, 1) < |y|
    requires forall i | 0 <= i <= SkipSpace(x, 1) :: y[i] == x[i]
    ensures TrailingCommaAt(y).None?
  {
    SkipSpaceIs(y, 1, SkipSpace(x, 1));
  }

  /** A character other than a comma is copied by rewrite 3. */
  lemma NonCommaCopied(y: string)
    requires y != [] && y[0] != ','
    ensures DropTrailingCommas(y) != [] && DropTrailingCommas(y)[0] == y[0]
  {
    ReplaceAllKeeps(TrailingCommaAt, y);
  }

  /** A comma that rewrite 3 does not take is copied together with the whitespace after
      it and the character after that, when that character is not a comma. */
  lemma CommaGapCopied(x: string, a: nat)
    requires x != [] && x[0] == ',' && TrailingCommaAt(x).None?
    requires a == SkipSpace(x, 1) && a < |x| && x[a] != ','
    ensures |DropTrailingCommas(x)| > a
    ensures forall i | 0 <= i <= a :: DropTrailingCommas(x)[i] == x[i]
  {
    TrailingCommaOpens();
    KeptPrefix(TrailingCommaAt, IsComma, x, a);
    NonCommaCopied(x[a..]);
    CopiedThrough(x, a, DropTrailingCommas(x[a..]), DropTrailingCommas(x));
  }

  /** Text made of the first `a` characters of `x` and then a text starting with
      `x[a]` agrees with `x` up to index `a`. */
  lemma CopiedThrough(x: string, a: nat, t: string, o: string)
    requires a < |x| && t != [] && t[0] == x[a]
    requires o == x[..a] + t
    ensures |o| > a && forall i | 0 <= i <= a :: o[i] == x[i]
  {
  }

  /** Where no comma is rewritten at the start of `x`, rewriting what follows does not
      produce one, provided the comma is not followed by whitespace and another comma. */
  lemma KeptCommaNoMatch(x: string)
    requires x != [] && TrailingCommaAt(x).None? && EmptyElementAt(x).None?
    ensures TrailingCommaAt(DropTrailingCommas(x)).None?
  {
    if x[0] != ',' {
      NonCommaCopied(x);
    } else {
      var a := SkipSpace(x, 1);
      if a == |x| {
        TrailingCommaOpens();
        KeptPrefix(TrailingCommaAt, IsComma, x, a);
        assert x[..a] == x && x[a..] == [];
      } else {
        CommaGapCopied(x, a);
        TrailingCommaDecided(x, DropTrailingCommas(x));
      }
    }
  }

  /** A comma whose next non-whitespace character is `]` is kept, with the whitespace
      after it. */
  lemma CommaBeforeBracketKept(gap: string, rest: string)
    requires forall i | 0 <= i < |gap| :: IsSpace(gap[i])
    ensures DropTrailingCommas("," + gap + "]" + rest) == "," + gap + DropTrailingCommas("]" + rest)
  {
    var x := "," + gap + "]" + rest;
    var a := 1 + |gap|;
    GapPieces(',', gap, "]" + rest, x);
    SkipSpaceIs(x, 1, a);
    TrailingCommaOpens();
    KeptPrefix(TrailingCommaAt, IsComma, x, a);
  }

  /** How a character, a gap and a tail sit in their concatenation. */
  lemma GapPieces(c: char, gap: string, t: string, x: string)
    requires x == [c] + gap + t && t != []
    ensures |x| == 1 + |gap| + |t| && x[0] == c && x[1 + |gap|] == t[0]
    ensures forall i | 1 <= i < 1 + |gap| :: x[i] == gap[i - 1]
    ensures x[..1 + |gap|] == [c] + gap && x[1 + |gap|..] == t
  {
  }

  /** Rewrite 3 leaves no comma directly (up to whitespace) before `}`, in any text where
      no comma is followed by whitespace and another comma. */
  lemma {:induction false} NoTrailingCommaRemains(text: string)
    requires Settled(EmptyElementAt, text)
    ensures Settled(TrailingCommaAt, DropTrailingCommas(text))
    decreases |text|
  {
    if text != [] {
      assert text[0..] == text;
      assert !MatchesAt(EmptyElementAt, text, 0);
      match TrailingCommaAt(text)
      case Some(m) =>
        SettledSuffix(EmptyElementAt, text, m.length);
        NoTrailingCommaRemains(text[m.length..]);
        DroppedCommaSettled(text, m.length);
      case None =>
        SettledSuffix(EmptyElementAt, text, 1);
        NoTrailingCommaRemains(text[1..]);
        KeptCharSettled(text);
    }
  }

  lemma DroppedCommaSettled(text: string, n: nat)
    requires TrailingCommaAt(text) == Some(Match(n, "}"))
    requires Settled(TrailingCommaAt, DropTrailingCommas(text[n..]))
    ensures Settled(TrailingCommaAt, DropTrailingCommas(text))
  {
    TrailingCommaOpens();
    DropTrailingCommasStep(text, n, "}");
    SettledAppend(TrailingCommaAt, IsComma, "}", DropTrailingCommas(text[n..]));
  }

  lemma KeptCharSettled(text: string)
    requires text != [] && TrailingCommaAt(text).None? && EmptyElementAt(text).None?
    requires Settled(TrailingCommaAt, DropTrailingCommas(text[1..]))
    ensures Settled(TrailingCommaAt, DropTrailingCommas(text))
  {
    KeptCommaNoMatch(text);
    ReplaceAllKeeps(TrailingCommaAt, text);
    SettledCons(TrailingCommaAt, text[0], DropTrailingCommas(text[1..]));
  }

  lemma DropTrailingCommasStep(x: string, n: nat, r: string)
    requires TrailingCommaAt(x) == Some(Match(n, r))
    ensures n <= |x| && DropTrailingCommas(x) == r + DropTrailingCommas(x[n..])
  {
    ReplaceAllRewritesTo(TrailingCommaAt, x, n, r);
  }

  /** Without that proviso the rewrite can leave a trailing comma: in `,,}` the first
      comma is followed by a comma, not `}`, and the second is consumed with the brace. */
  lemma TrailingCommaSurvives()
    ensures DropTrailingCommas(",,}") == ",}"
    ensures MatchesAt(TrailingCommaAt, ",}", 0)
  {
    var x := ",,}";
    assert SkipSpace(x, 1) == 1;
    assert TrailingCommaAt(x).None?;
    assert x[1..] == ",}";
    assert SkipSpace(",}", 1) == 1;
    assert TrailingCommaAt(",}") == Some(Match(2, "}"));
    assert ",}"[2..] == [];
    assert ",}"[0..] == ",}";
  }

  // ---------------------------------------------------------------------------------
  // Fence removal

  /** Every fence starts with a backtick or with a newline and then a backtick. */
  lemma NoFenceHere(y: string)
    requires y != [] && y[0] != '`' && (|y| < 2 || y[1] != '`')
    ensures FenceAt(y).None?
  {
    if |y| >= 4 {
      assert y[..4][1] == y[1];
    }
  }

  /** In `x`, no fence starts before index `n`, since no backtick occurs before `n + 1`. */
  lemma NoFenceBefore(x: string, n: nat)
    requires n < |x|
    requires forall i | 0 <= i <= n :: x[i] != '`'
    ensures forall k | 0 <= k < n :: !MatchesAt(FenceAt, x, k)
  {
    forall k | 0 <= k < n ensures !MatchesAt(FenceAt, x, k) {
      assert x[k..][0] == x[k] && x[k..][1] == x[k + 1];
      NoFenceHere(x[k..]);
    }
  }

  /** A reply without backticks is only trimmed. */
  lemma StripFencesWithoutBackticks(reply: string)
    requires forall i | 0 <= i < |reply| :: reply[i] != '`'
    ensures StripFences(reply) == Trim(reply)
  {
    var y := reply + ".";
    NoFenceBefore(y, |reply|);
    forall k | 0 <= k < |reply| ensures !MatchesAt(FenceAt, reply, k) {
      assert !MatchesAt(FenceAt, y, k);
      if k + 1 < |reply| {
        NoFenceHere(reply[k..]);
      } else {
        assert reply[k..] == [reply[k]];
      }
    }
    ReplaceAllSettled(FenceAt, reply);
  }

  /** An opening json fence with its newline is deleted. */
  lemma OpeningFenceRemoved(x: string, rest: string)
    requires x == "```json\n" + rest
    ensures ReplaceAll(FenceAt, x) == ReplaceAll(FenceAt, rest)
  {
    assert x[..8] == "```json\n";
    assert FenceAt(x) == Some(Match(8, ""));
    ReplaceAllRewrites(FenceAt, x);
    assert x[8..] == rest;
  }

  /** A fence with the newline before it is deleted. */
  lemma NewlineFenceRemoved(x: string, rest: string)
    requires x == "\n```" + rest
    ensures ReplaceAll(FenceAt, x) == ReplaceAll(FenceAt, rest)
  {
    assert x[..4] == "\n```";
    assert !("```" <= x) by {
      assert x[0] == '\n';
      if |x| >= 3 {
        assert x[..3][0] == x[0];
      }
    }
    assert FenceAt(x) == Some(Match(4, ""));
    ReplaceAllRewrites(FenceAt, x);
    assert x[4..] == rest;
  }

  /** "```json" not followed by a newline is deleted on its own. */
  lemma TaggedFenceRemoved(x: string, rest: string)
    requires x == "```json" + rest && (rest == [] || rest[0] != '\n')
    ensures ReplaceAll(FenceAt, x) == ReplaceAll(FenceAt, rest)
  {
    assert x[..7] == "```json";
    assert !("```json\n" <= x) by {
      if |x| >= 8 {
        assert x[..8][7] == x[7] == rest[0];
      }
    }
    assert FenceAt(x) == Some(Match(7, ""));
    ReplaceAllRewrites(FenceAt, x);
    assert x[7..] == rest;
  }

  /** "```" with no newline before it and no "json" after it is deleted on its own, as
      at the start of a code block without a language tag. */
  lemma BareFenceRemoved(x: string, rest: string)
    requires x == "```" + rest && !("json" <= rest)
    ensures ReplaceAll(FenceAt, x) == ReplaceAll(FenceAt, rest)
  {
    BareFenceAt(x, rest);
    ReplaceAllRewritesTo(FenceAt, x, 3, "");
    assert x[3..] == rest;
  }

  lemma BareFenceAt(x: string, rest: string)
    requires x == "```" + rest && !("json" <= rest)
    ensures FenceAt(x) == Some(Match(3, ""))
  {
    assert x[..3] == "```";
    assert !("```json" <= x) by {
      if |x| >= 7 {
        assert x[3..7] == rest[..4];
      }
    }
    assert !("```json\n" <= x) by {
      if |x| >= 8 {
        assert x[..8][..7] == x[..7];
      }
    }
    assert !("\n```" <= x) by {
      if |x| >= 4 {
        assert x[..4][0] == x[0] == '`';
      }
    }
  }

  /** Text without backticks before a closing fence is copied. */
  lemma FencelessPrefix(body: string, y: string)
    requires forall i | 0 <= i < |body| :: body[i] != '`'
    requires y == body + "\n```"
    ensures ReplaceAll(FenceAt, y) == body + ReplaceAll(FenceAt, y[|body|..])
  {
    NoFenceBefore(y, |body|);
    ReplaceAllSkip(FenceAt, y, |body|);
    assert y[..|body|] == body;
  }

  /** A closing fence at the end of the text disappears. */
  lemma ClosingFenceRemoved(body: string, y: string)
    requires forall i | 0 <= i < |body| :: body[i] != '`'
    requires y == body + "\n```"
    ensures ReplaceAll(FenceAt, y) == body
  {
    FencelessPrefix(body, y);
    var f := y[|body|..];
    assert f == "\n```" + [];
    NewlineFenceRemoved(f, []);
  }

  /** A reply wrapped in a json code block comes out as the trimmed block content. */
  lemma StripFencesUnwraps(body: string)
    requires forall i | 0 <= i < |body| :: body[i] != '`'
    ensures StripFences("```json\n" + body + "\n```") == Trim(body)
  {
    var rest := body + "\n```";
    OpeningFenceRemoved("```json\n" + rest, rest);
    assert "```json\n" + body + "\n```" == "```json\n" + rest;
    ClosingFenceRemoved(body, rest);
  }

  /** A reply wrapped in a code block without a language tag comes out as the trimmed
      block content. */
  lemma StripFencesUnwrapsUntagged(body: string)
    requires forall i | 0 <= i < |body| :: body[i] != '`'
    ensures StripFences("```" + ("\n" + body + "\n```")) == Trim(body)
  {
    var inner := "\n" + body;
    var rest := inner + "\n```";
    assert !("json" <= rest) by {
      assert rest[0] == '\n';
      if |rest| >= 4 {
        assert rest[..4][0] == rest[0];
      }
    }
    BareFenceRemoved("```" + rest, rest);
    NoBacktickConcat("\n", body, inner);
    ClosingFenceRemoved(inner, rest);
    TrimIgnoresPadding("\n", body, "");
    assert "\n" + body + "" == inner;
  }

  /** The second alternative also takes the newline before an opening fence, so a reply
      that starts with a newline and a json block keeps the word `json` in front of the
      block content. */
  lemma StripFencesKeepsLanguageTag(body: string)
    requires forall i | 0 <= i < |body| :: body[i] != '`'
    ensures StripFences("\n```" + ("json\n" + body + "\n```")) == Trim("json\n" + body)
  {
    var inner := "json\n" + body;
    var rest := inner + "\n```";
    NewlineFenceRemoved("\n```" + rest, rest);
    NoBacktickConcat("json\n", body, inner);
    ClosingFenceRemoved(inner, rest);
  }

  lemma NoBacktickConcat(a: string, b: string, ab: string)
    requires ab == a + b
    requires forall i | 0 <= i < |a| :: a[i] != '`'
    requires forall i | 0 <= i < |b| :: b[i] != '`'
    ensures forall i | 0 <= i < |ab| :: ab[i] != '`'
  {
    forall i | 0 <= i < |ab| ensures ab[i] != '`' {
      if i >= |a| {
        assert ab[i] == b[i - |a|];
      }
    }
  }

  // ---------------------------------------------------------------------------------
  // Text that is already clean

  /** A value already written `: "..."` followed by its character is left as it is. */
  lemma SpacedValueFixedWhenSpaced(x: string)
    requires SpacedValueAt(x).Some? && |x| >= 3 && x[..3] == ": \""
    ensures SpacedValueAt(x).value.replacement == x[..SpacedValueAt(x).value.length]
  {
    var a := SkipSpace(x, 1);
    var b := SkipUntil('"', x, a + 1);
    assert a == 2 by {
      SkipSpaceIs(x, 1, 2);
    }
    assert x[..b + 2] == ": \"" + x[3..b] + "\"" + [x[b + 1]];
  }

  /** Text in which rewrites 1 and 3 find nothing to do and rewrite 2 only finds values
      already written `: "..."`. */
  predicate CleanJson(t: string)
  {
    KeysQuoted(t) && ValuesSpaced(t) && CommasKept(t)
  }

  predicate KeysQuoted(t: string)
  {
    Settled(BareKeyAt, t)
  }

  predicate ValuesSpaced(t: string)
  {
    Fixed(SpacedValueAt, t)
  }

  predicate CommasKept(t: string)
  {
    Settled(TrailingCommaAt, t)
  }

  lemma CleanTextUnchanged(t: string)
    requires CleanJson(t)
    ensures DropTrailingCommas(SpaceValues(QuoteKeys(t))) == t
  {
    ReplaceAllSettled(BareKeyAt, t);
    ReplaceAllFixed(SpacedValueAt, t);
    ReplaceAllSettled(TrailingCommaAt, t);
  }

  /** A reply without backticks whose trimmed text is already clean reaches `JSON.parse`
      as the trimmed reply. */
  lemma CleanReplyUnchanged(reply: string)
    requires forall i | 0 <= i < |reply| :: reply[i] != '`'
    requires CleanJson(Trim(reply))
    ensures Repaired(reply) == Trim(reply)
  {
    StripFencesWithoutBackticks(reply);
    CleanTextUnchanged(Trim(reply));
  }

  /** The key found by rewrite 1 after a comma. */
  lemma CommaKeyMatch(w: string, y: string)
    requires w != [] && forall i | 0 <= i < |w| :: IsWord(w[i])
    requires y == "," + w + ":\""
    ensures BareKeyAt(y) == Some(Match(|w| + 2, ",\"" + w + "\":"))
  {
    assert y[1] == w[0] && IsWord(y[1]);
    SkipSpaceIs(y, 1, 1);
    assert forall i | 1 <= i < 1 + |w| :: y[i] == w[i - 1];
    assert y[1 + |w|] == ':';
    SkipWordIs(y, 1, 1 + |w|);
    SkipSpaceIs(y, 1 + |w|, 1 + |w|);
    var r := y[..1] + "\"" + y[1..1 + |w|] + "\"" + y[1 + |w|..2 + |w|];
    assert BareKeyAt(y) == Some(Match(|w| + 2, r));
    assert y[..1] == "," && y[1..1 + |w|] == w && y[1 + |w|..2 + |w|] == ":";
    calc {
      r;
      "," + "\"" + w + "\"" + ":";
      ("," + "\"") + w + ("\"" + ":");
      { assert "," + "\"" == ",\"" && "\"" + ":" == "\":"; }
      ",\"" + w + "\":";
    }
  }

  /** A quote is copied: no match starts at it. */
  lemma QuoteKept(x: string, y: string)
    requires x == "\"" + y
    ensures QuoteKeys(x) == "\"" + QuoteKeys(y)
  {
    ReplaceAllKeeps(BareKeyAt, x);
    assert x[1..] == y;
  }

  /** A lone quote is copied. */
  lemma LoneQuoteKept(z: string)
    requires z == "\""
    ensures QuoteKeys(z) == z
  {
    ReplaceAllKeeps(BareKeyAt, z);
  }

  lemma CommaKeyRewritten(w: string, y: string)
    requires w != [] && forall i | 0 <= i < |w| :: IsWord(w[i])
    requires y == "," + w + ":\""
    ensures QuoteKeys(y) == ",\"" + w + "\":" + "\""
  {
    var r := ",\"" + w + "\":";
    CommaKeyMatch(w, y);
    QuoteKeysStep(y, |w| + 2, r);
    var z := y[|w| + 2..];
    assert |z| == 1 && z[0] == '"';
    LoneQuoteKept(z);
    assert QuoteKeys(y) == r + "\"";
  }

  lemma QuoteKeysStep(x: string, n: nat, r: string)
    requires BareKeyAt(x) == Some(Match(n, r))
    ensures n <= |x| && QuoteKeys(x) == r + QuoteKeys(x[n..])
  {
    ReplaceAllRewritesTo(BareKeyAt, x, n, r);
  }

  /** Rewrite 1 also acts inside string values: a comma, a word and a colon in a quoted
      value gain quotes, which turns the valid JSON string `",w:"` into invalid JSON. */
  lemma QuoteKeysEntersStrings(w: string, x: string)
    requires w != [] && forall i | 0 <= i < |w| :: IsWord(w[i])
    requires x == "\"" + ("," + w + ":\"")
    ensures QuoteKeys(x) == "\"" + (",\"" + w + "\":" + "\"")
  {
    var y := "," + w + ":\"";
    QuoteKept(x, y);
    CommaKeyRewritten(w, y);
  }
}
