// The command-argument lexer of src/core/commands/args/Lexer.ts: a
// quote-aware, escape-aware tokenizer that backtracks when a quote is never
// closed. Its escapes resolve `\c` to `c` for every `c`.
module CoreLexer {
  import opened Monads
  import opened Tokens
  import opened TextScan
  import Registry

  /**
   * The token `next()` yields at position `p` of `s` and the position after
   * it: a quoted phrase when quotes are registered, `s[p]` is not the last
   * character and opens a quote whose close quote follows; a bare word
   * otherwise, which after an unclosed quote starts at the quote itself.
   */
  function NextToken(ws: char -> bool, quotes: map<char, char>, s: string, p: nat): (r: (Token, nat))
    requires p < |s|
    ensures p < r.1 <= |s|
    ensures r.0.raw + r.0.trailing == s[p..(r.1)]
    ensures forall k :: 0 <= k < |r.0.trailing| ==> ws(r.0.trailing[k])
    ensures r.1 == |s| || !ws(s[r.1])
  {
    var c := s[p];
    var isMaybeQuoted := |quotes| > 0 && p != |s| - 1 && c in quotes;
    if isMaybeQuoted && QuotedToken(ws, ResolveAll, s, p, quotes[c]).Some? then
      QuotedToken(ws, ResolveAll, s, p, quotes[c]).value
    else
      WordToken(ws, ResolveAll, s, p)
  }

  /** All tokens `lex()` yields from position `p` of `s`: one `NextToken` after another. */
  function LexedTokens(ws: char -> bool, quotes: map<char, char>, s: string, p: nat): seq<Token>
    decreases |s| - p
  {
    if p >= |s| then []
    else
      var (t, q) := NextToken(ws, quotes, s, p);
      [t] + LexedTokens(ws, quotes, s, q)
  }

  /** The tokens from `p` before the end: the one `NextToken` yields, then those from where it ends. */
  lemma LexedStep(ws: char -> bool, quotes: map<char, char>, s: string, p: nat, t: Token, q: nat)
    requires p < |s| && (t, q) == NextToken(ws, quotes, s, p)
    ensures LexedTokens(ws, quotes, s, p) == [t] + LexedTokens(ws, quotes, s, q)
  {
  }

  /** `lex()` loses nothing: its tokens' raw text and trailing whitespace spell out the input from `p` on. */
  lemma {:induction false} LexJoin(ws: char -> bool, quotes: map<char, char>, s: string, p: nat)
    requires p <= |s|
    ensures Join(LexedTokens(ws, quotes, s, p)) == s[p..]
    decreases |s| - p
  {
    if p < |s| {
      var (t, q) := NextToken(ws, quotes, s, p);
      LexJoin(ws, quotes, s, q);
      JoinSpells(t, LexedTokens(ws, quotes, s, q), s, p, q);
    }
  }

  /** Input that is empty or all `trimLeft` whitespace yields no tokens once `setInput` has trimmed it. */
  lemma BlankInputNoTokens(ws: char -> bool, quotes: map<char, char>, x: string)
    requires forall k :: 0 <= k < |x| ==> IsJsWhiteSpace(x[k])
    ensures LexedTokens(ws, quotes, TrimStart(IsJsWhiteSpace, x), 0) == []
  {
    var t := TrimStart(IsJsWhiteSpace, x);
    var k :| 0 <= k <= |x| && t == x[k..] && (forall j :: 0 <= j < k ==> IsJsWhiteSpace(x[j]));
    assert t == [];
  }

  /**
   * When the lexer's `isWhiteSpace` holds for U+0085, a character `trimLeft`
   * keeps, an input of just that character lexes to one token with no value
   * and no raw text, the character as its trailing whitespace.
   */
  lemma NextLineOnlyToken(ws: char -> bool, quotes: map<char, char>)
    requires ws('\U{0085}')
    ensures TrimStart(IsJsWhiteSpace, "\U{0085}") == "\U{0085}"
    ensures LexedTokens(ws, quotes, "\U{0085}", 0) == [Token("", "", "\U{0085}")]
  {
    TrimLeftExamples();
    var s := "\U{0085}";
    assert ScanWord(ws, ResolveAll, s, 0) == Scan([], [], 0);
    assert WhiteSpaceEnd(ws, s, 0) == 1 by {
      assert WhiteSpaceEnd(ws, s, 1) == 1;
    }
    WordTokenOf(ws, ResolveAll, s, 0, [], [], 0);
    assert s[0..1] == s;
    var t := Token([], [], s);
    assert NextToken(ws, quotes, s, 0) == (t, 1);
    LexedStep(ws, quotes, s, 0, t, 1);
  }

  /**
   * An open quote whose close quote never follows is an ordinary character:
   * `next()` backtracks and reads a bare word that starts with the quote.
   */
  lemma UnclosedQuoteIsWord(ws: char -> bool, quotes: map<char, char>, s: string, p: nat)
    requires p < |s| && s[p] in quotes && !ws(s[p])
    requires ScanQuoted(ResolveAll, s, p + 1, quotes[s[p]]).None?
    ensures NextToken(ws, quotes, s, p) == WordToken(ws, ResolveAll, s, p)
    ensures |NextToken(ws, quotes, s, p).0.raw| > 0 && NextToken(ws, quotes, s, p).0.raw[0] == s[p]
  {
    var sc := ScanWord(ws, ResolveAll, s, p);
    assert sc.raw == s[p..sc.end];
  }

  /** The last character is always a word of its own, even when it is an open quote. */
  lemma LastCharacterIsWord(ws: char -> bool, quotes: map<char, char>, s: string)
    requires |s| > 0 && !ws(s[|s| - 1])
    ensures NextToken(ws, quotes, s, |s| - 1) == (Token([s[|s| - 1]], [s[|s| - 1]], []), |s|)
  {
    var p := |s| - 1;
    assert ScanWord(ws, ResolveAll, s, p) == Scan([s[p]], [s[p]], |s|) by {
      assert ScanWord(ws, ResolveAll, s, |s|) == Scan([], [], |s|);
    }
    assert s[|s|..|s|] == [];
  }

  /**
   * A token's value is its raw text with every escape pair resolved; for a
   * quoted phrase, the raw text between its open and close quote.
   */
  lemma TokenValue(ws: char -> bool, quotes: map<char, char>, s: string, p: nat)
    requires p < |s|
    ensures var t := NextToken(ws, quotes, s, p).0;
      t.value == Unescape(ResolveAll, t.raw)
      || (s[p] in quotes && |t.raw| >= 2 && t.raw[0] == s[p] && t.raw[|t.raw| - 1] == quotes[s[p]]
          && t.value == Unescape(ResolveAll, t.raw[1..|t.raw| - 1]))
  {
    var c := s[p];
    if |quotes| > 0 && p != |s| - 1 && c in quotes && QuotedToken(ws, ResolveAll, s, p, quotes[c]).Some? {
      ScanQuotedUnescapes(ResolveAll, s, p + 1, quotes[c]);
      var sc := ScanQuoted(ResolveAll, s, p + 1, quotes[c]).value;
      var raw := [c] + sc.raw + [quotes[c]];
      assert raw[1..|raw| - 1] == sc.raw;
    } else {
      ScanWordUnescapes(ws, ResolveAll, s, p);
    }
  }

  // The scanning loops of the lexer run on a copy `p` of its `position`,
  // which the calling method stores back.

  /**
   * One turn of the loop of `nextQuoted` at `p`, which is not the close
   * quote: an escape pair when a backslash is not the last character, else
   * one plain character.
   */
  method QuotedStep(text: string, p: nat, closeQuote: char, value: string, raw: string) returns (value': string, raw': string, p': nat)
    requires p < |text| && text[p] != closeQuote
    ensures p < p' <= |text|
    ensures PrependQuoted(value', raw', ScanQuoted(ResolveAll, text, p', closeQuote))
      == PrependQuoted(value, raw, ScanQuoted(ResolveAll, text, p, closeQuote))
  {
    var c := text[p];
    if c == Backslash && p != |text| - 1 {
      var nextChar := text[p + 1];
      ScanQuotedEscape(ResolveAll, text, p, closeQuote, value, raw);
      return value + [nextChar], raw + [Backslash, nextChar], p + 2;
    }
    ScanQuotedPlain(ResolveAll, text, p, closeQuote, value, raw);
    return value + [c], raw + [c], p + 1;
  }

  /**
   * One turn of the loop of `nextWord` at `p`, which is not whitespace: an
   * escape pair when a backslash is not the last character, else one plain
   * character.
   */
  method WordStep(ws: char -> bool, text: string, p: nat, value: string, raw: string) returns (value': string, raw': string, p': nat)
    requires p < |text| && !ws(text[p])
    ensures p < p' <= |text|
    ensures Prepend(value', raw', ScanWord(ws, ResolveAll, text, p')) == Prepend(value, raw, ScanWord(ws, ResolveAll, text, p))
  {
    var c := text[p];
    if c == Backslash && p != |text| - 1 {
      var nextChar := text[p + 1];
      ScanWordEscape(ws, ResolveAll, text, p, value, raw);
      return value + [nextChar], raw + [Backslash, nextChar], p + 2;
    }
    ScanWordPlain(ws, ResolveAll, text, p, value, raw);
    return value + [c], raw + [c], p + 1;
  }

  /**
   * The loop of `nextQuoted`, from `p0` to the first unescaped `closeQuote`;
   * `found` is false when the input ends first.
   */
  method ScanToCloseQuote(text: string, p0: nat, closeQuote: char) returns (found: bool, value: string, raw: string, p: nat)
    requires p0 <= |text|
    ensures p0 <= p <= |text|
    ensures !found ==> ScanQuoted(ResolveAll, text, p0, closeQuote).None?
    ensures found ==> p < |text| && text[p] == closeQuote
    ensures found ==> PrependQuoted(value, raw, ScanQuoted(ResolveAll, text, p, closeQuote)) == ScanQuoted(ResolveAll, text, p0, closeQuote)
  {
    p := p0;
    raw, value := [], [];
    ghost var scan := ScanQuoted(ResolveAll, text, p, closeQuote);
    ScanQuotedStart(ResolveAll, text, p, closeQuote);
    while p < |text| && text[p] != closeQuote
      invariant p0 <= p <= |text|
      invariant PrependQuoted(value, raw, ScanQuoted(ResolveAll, text, p, closeQuote)) == scan
      decreases |text| - p
    {
      value, raw, p := QuotedStep(text, p, closeQuote, value, raw);
    }
    found := p < |text|;
  }

  /** The loop of `nextWord`: a bare word from `p0` up to the first unescaped whitespace. */
  method ScanWordFrom(ws: char -> bool, text: string, p0: nat) returns (value: string, raw: string, p: nat)
    requires p0 <= |text|
    ensures ScanWord(ws, ResolveAll, text, p0) == Scan(value, raw, p)
  {
    p := p0;
    raw, value := [], [];
    ghost var scan := ScanWord(ws, ResolveAll, text, p);
    assert Prepend(value, raw, scan) == scan;
    while p < |text| && !ws(text[p])
      invariant p0 <= p <= |text|
      invariant Prepend(value, raw, ScanWord(ws, ResolveAll, text, p)) == scan
      decreases |text| - p
    {
      value, raw, p := WordStep(ws, text, p, value, raw);
    }
    ScanWordStop(ws, ResolveAll, text, p, value, raw);
  }

  /** The loop of `consumingLeadingWhiteSpace`: the whitespace run from `p0`. */
  method WhiteSpaceFrom(ws: char -> bool, text: string, p0: nat) returns (result: string, p: nat)
    requires p0 <= |text|
    ensures p == WhiteSpaceEnd(ws, text, p0)
    ensures result == text[p0..p]
  {
    p := p0;
    result := [];
    while p < |text| && ws(text[p])
      invariant p0 <= p <= |text|
      invariant WhiteSpaceEnd(ws, text, p) == WhiteSpaceEnd(ws, text, p0)
      invariant result == text[p0..p]
      decreases |text| - p
    {
      result := result + [text[p]];
      p := p + 1;
    }
  }

  class Lexer {
    /** `isWhiteSpace` of the character library, taken as given. */
    const isWhiteSpace: char -> bool
    var input: string
    var position: nat
    var quotes: map<char, char>

    constructor (isWhiteSpace: char -> bool)
      ensures this.isWhiteSpace == isWhiteSpace
      ensures input == [] && position == 0 && quotes == map[]
    {
      this.isWhiteSpace := isWhiteSpace;
      input := [];
      position := 0;
      quotes := map[];
    }

    /** Stores the input without what `trimLeft` drops, and rewinds. */
    method SetInput(input: string)
      modifies this
      ensures this.input == TrimStart(IsJsWhiteSpace, input)
      ensures position == 0 && quotes == old(quotes)
    {
      this.input := TrimStart(IsJsWhiteSpace, input);
      Reset();
    }

    /** Registers each pair's open quote with its close quote, last one winning. */
    method SetQuotes(pairs: seq<QuotePair>)
      modifies this`quotes
      ensures quotes == Registry.SetAll(old(quotes), QuoteEntries(pairs))
    {
      for i := 0 to |pairs|
        invariant quotes == Registry.SetAll(old(quotes), QuoteEntries(pairs[..i]))
      {
        assert pairs[..i + 1][..i] == pairs[..i];
        quotes := quotes[pairs[i].open := pairs[i].close];
      }
      assert pairs[..|pairs|] == pairs;
    }

    method Reset()
      modifies this`position
      ensures position == 0
    {
      position := 0;
    }

    predicate Done()
      reads this
    {
      position >= |input|
    }

    predicate IsLastCharacter()
      reads this
    {
      position == |input| - 1
    }

    /**
     * Yields the next token, or `None` (`done: true`) at the end of input,
     * and moves past the token and its trailing whitespace.
     */
    method Next() returns (r: Maybe<Token>)
      modifies this`position
      ensures old(Done()) ==> r == None && position == old(position)
      ensures !old(Done()) ==> r.Some? && (r.value, position) == NextToken(isWhiteSpace, quotes, input, old(position))
    {
      if Done() {
        return None;
      }
      var c := input[position];
      var isMaybeQuoted := |quotes| > 0 && !IsLastCharacter() && c in quotes;
      if isMaybeQuoted {
        var startPosition := position;
        var closeQuote := quotes[c];
        position := position + 1;
        var token := NextQuoted(c, closeQuote);
        if token.Some? {
          return token;
        }
        position := startPosition;
      }
      var word := NextWord();
      return Some(word);
    }

    /** Drains `Next()`: every token from the current position on. */
    method Lex() returns (tokens: seq<Token>)
      modifies this`position
      ensures tokens == LexedTokens(isWhiteSpace, quotes, input, old(position))
      ensures Done()
    {
      tokens := [];
      ghost var start := position;
      while true
        invariant tokens + LexedTokens(isWhiteSpace, quotes, input, position) == LexedTokens(isWhiteSpace, quotes, input, start)
        decreases |input| - position
      {
        ghost var before := position;
        var r := Next();
        if r.None? {
          assert tokens == tokens + LexedTokens(isWhiteSpace, quotes, input, position);
          return;
        }
        LexedStep(isWhiteSpace, quotes, input, before, r.value, position);
        AppendAssoc(tokens, [r.value], LexedTokens(isWhiteSpace, quotes, input, position));
        tokens := tokens + [r.value];
      }
    }

    /**
     * Scans a quoted phrase whose open quote was just skipped; `None` when the
     * input ends before an unescaped close quote.
     */
    method NextQuoted(openQuote: char, closeQuote: char) returns (r: Maybe<Token>)
      requires 0 < position <= |input| && input[position - 1] == openQuote
      modifies this`position
      ensures r.None? ==> QuotedToken(isWhiteSpace, ResolveAll, input, old(position) - 1, closeQuote).None?
      ensures r.Some? ==> QuotedToken(isWhiteSpace, ResolveAll, input, old(position) - 1, closeQuote) == Some((r.value, position))
    {
      var start := position;
      var found, value, raw, p := ScanToCloseQuote(input, start, closeQuote);
      if !found {
        position := p;
        return None;
      }
      QuotedTokenAt(isWhiteSpace, ResolveAll, input, start - 1, openQuote, closeQuote, value, raw, p);
      position := p + 1;
      var trailing := ConsumingLeadingWhiteSpace();
      return Some(Token(value, [openQuote] + raw + [closeQuote], trailing));
    }

    /** Scans a bare word up to the first unescaped whitespace character. */
    method NextWord() returns (t: Token)
      requires position <= |input|
      modifies this`position
      ensures (t, position) == WordToken(isWhiteSpace, ResolveAll, input, old(position))
    {
      var value, raw, p := ScanWordFrom(isWhiteSpace, input, position);
      WordTokenOf(isWhiteSpace, ResolveAll, input, position, value, raw, p);
      position := p;
      var trailing := ConsumingLeadingWhiteSpace();
      t := Token(value, raw, trailing);
    }

    /** Consumes the whitespace run at the current position and returns it. */
    method ConsumingLeadingWhiteSpace() returns (result: string)
      requires position <= |input|
      modifies this`position
      ensures position == WhiteSpaceEnd(isWhiteSpace, input, old(position))
      ensures result == input[old(position)..position]
    {
      var p;
      result, p := WhiteSpaceFrom(isWhiteSpace, input, position);
      position := p;
    }
  }
}
