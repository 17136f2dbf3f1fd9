// The framework's command-argument lexer, src/framework/commands/args/Lexer.ts.
// It differs from the core lexer in three ways: it ignores quotes until some
// are registered, the last character is always a token of its own, and an
// escape `\c` resolves to `c` only for a registered close quote or a
// backslash (any other pair is kept as written).
module FrameworkLexer {
  import opened Monads
  import opened Tokens
  import opened TextScan
  import Registry

  /** The close quotes of `pairs`. */
  function CloseQuotesOf(pairs: seq<QuotePair>): (r: set<char>)
    ensures forall c :: c in r <==> exists i :: 0 <= i < |pairs| && pairs[i].close == c
  {
    if pairs == [] then {}
    else CloseQuotesOf(pairs[..|pairs| - 1]) + {pairs[|pairs| - 1].close}
  }

  /** Registering one more quote pair updates the table and the close-quote set by that pair alone. */
  lemma SetQuotesStep(m: map<char, char>, pairs: seq<QuotePair>, i: nat)
    requires i < |pairs|
    ensures Registry.SetAll(m, QuoteEntries(pairs[..i + 1]))
      == Registry.SetAll(m, QuoteEntries(pairs[..i]))[pairs[i].open := pairs[i].close]
    ensures CloseQuotesOf(pairs[..i + 1]) == CloseQuotesOf(pairs[..i]) + {pairs[i].close}
  {
    assert pairs[..i + 1][..i] == pairs[..i];
  }

  /**
   * The token `next()` yields at position `p` of `s` and the position after
   * it, with `quotes` the registered quote table and `closeQuotes` every close
   * quote ever registered.
   */
  function NextToken(ws: char -> bool, quotes: map<char, char>, closeQuotes: set<char>, s: string, p: nat): (r: (Token, nat))
    requires p < |s|
    ensures p < r.1 <= |s|
    ensures r.0.raw + r.0.trailing == s[p..(r.1)]
    ensures forall k :: 0 <= k < |r.0.trailing| ==> ws(r.0.trailing[k])
    ensures r.1 == |s| || !ws(s[r.1])
  {
    var esc := ResolveCloseQuotes(closeQuotes);
    if |quotes| == 0 then WordToken(ws, esc, s, p)
    else if p == |s| - 1 then
      assert s[p..p + 1] == [s[p]];
      (Token([s[p]], [s[p]], []), p + 1)
    else if s[p] !in quotes then WordToken(ws, esc, s, p)
    else
      match QuotedToken(ws, esc, s, p, quotes[s[p]])
      case None => WordToken(ws, esc, s, p)
      case Some(t) => t
  }

  /** All tokens `lex()` yields from position `p` of `s`: one `NextToken` after another. */
  function LexedTokens(ws: char -> bool, quotes: map<char, char>, closeQuotes: set<char>, s: string, p: nat): seq<Token>
    decreases |s| - p
  {
    if p >= |s| then []
    else
      var (t, q) := NextToken(ws, quotes, closeQuotes, s, p);
      [t] + LexedTokens(ws, quotes, closeQuotes, s, q)
  }

  /** The tokens from `p` before the end: the one `NextToken` yields, then those from where it ends. */
  lemma LexedStep(ws: char -> bool, quotes: map<char, char>, closeQuotes: set<char>, s: string, p: nat, t: Token, q: nat)
    requires p < |s| && (t, q) == NextToken(ws, quotes, closeQuotes, s, p)
    ensures LexedTokens(ws, quotes, closeQuotes, s, p) == [t] + LexedTokens(ws, quotes, closeQuotes, s, q)
  {
  }

  /** `lex()` loses nothing: its tokens spell out the input from `p` on. */
  lemma {:induction false} LexJoin(ws: char -> bool, quotes: map<char, char>, closeQuotes: set<char>, s: string, p: nat)
    requires p <= |s|
    ensures Join(LexedTokens(ws, quotes, closeQuotes, s, p)) == s[p..]
    decreases |s| - p
  {
    if p < |s| {
      var (t, q) := NextToken(ws, quotes, closeQuotes, s, p);
      LexJoin(ws, quotes, closeQuotes, s, q);
      JoinSpells(t, LexedTokens(ws, quotes, closeQuotes, s, q), s, p, q);
    }
  }

  /** Until quotes are registered, quote characters are ordinary word characters. */
  lemma NoQuotesAllWords(ws: char -> bool, closeQuotes: set<char>, s: string, p: nat)
    requires p < |s|
    ensures NextToken(ws, map[], closeQuotes, s, p) == WordToken(ws, ResolveCloseQuotes(closeQuotes), s, p)
  {
  }

  /**
   * With quotes registered, the last character of the input is a token of
   * its own, whatever it is, with no trailing whitespace.
   */
  lemma LastCharacterToken(ws: char -> bool, quotes: map<char, char>, closeQuotes: set<char>, s: string)
    requires |s| > 0 && |quotes| > 0
    ensures NextToken(ws, quotes, closeQuotes, s, |s| - 1) == (Token([s[|s| - 1]], [s[|s| - 1]], []), |s|)
  {
  }

  /**
   * An open quote whose close quote never follows is an ordinary character:
   * `next()` backtracks and reads a bare word that starts with the quote.
   */
  lemma UnclosedQuoteIsWord(ws: char -> bool, quotes: map<char, char>, closeQuotes: set<char>, s: string, p: nat)
    requires p < |s| - 1 && s[p] in quotes && !ws(s[p])
    requires ScanQuoted(ResolveCloseQuotes(closeQuotes), s, p + 1, quotes[s[p]]).None?
    ensures NextToken(ws, quotes, closeQuotes, s, p) == WordToken(ws, ResolveCloseQuotes(closeQuotes), s, p)
    ensures |NextToken(ws, quotes, closeQuotes, s, p).0.raw| > 0 && NextToken(ws, quotes, closeQuotes, s, p).0.raw[0] == s[p]
  {
    var sc := ScanWord(ws, ResolveCloseQuotes(closeQuotes), s, p);
    assert sc.raw == s[p..sc.end];
  }

  /**
   * A token's value is its raw text with the escapes resolved; for a quoted
   * phrase, the raw text between its open and close quote.
   */
  lemma TokenValue(ws: char -> bool, quotes: map<char, char>, closeQuotes: set<char>, s: string, p: nat)
    requires p < |s|
    ensures var t := NextToken(ws, quotes, closeQuotes, s, p).0;
      t.value == Unescape(ResolveCloseQuotes(closeQuotes), t.raw)
      || (s[p] in quotes && |t.raw| >= 2 && t.raw[0] == s[p] && t.raw[|t.raw| - 1] == quotes[s[p]]
          && t.value == Unescape(ResolveCloseQuotes(closeQuotes), t.raw[1..|t.raw| - 1]))
  {
    var esc := ResolveCloseQuotes(closeQuotes);
    if |quotes| == 0 || s[p] !in quotes {
      ScanWordUnescapes(ws, esc, s, p);
    } else if p == |s| - 1 {
      assert Unescape(esc, [s[p]]) == [s[p]];
    } else if QuotedToken(ws, esc, s, p, quotes[s[p]]).None? {
      ScanWordUnescapes(ws, esc, s, p);
    } else {
      ScanQuotedUnescapes(esc, s, p + 1, quotes[s[p]]);
      var sc := ScanQuoted(esc, s, p + 1, quotes[s[p]]).value;
      var raw := [s[p]] + sc.raw + [quotes[s[p]]];
      assert raw[1..|raw| - 1] == sc.raw;
    }
  }

  /** An escape pair that is neither `\\` nor a backslash before a close quote is kept as written. */
  lemma UnknownEscapeKept(closeQuotes: set<char>, c: char, rest: string)
    requires c !in closeQuotes && c != Backslash
    ensures Unescape(ResolveCloseQuotes(closeQuotes), [Backslash, c] + rest)
      == [Backslash, c] + Unescape(ResolveCloseQuotes(closeQuotes), rest)
  {
    assert ([Backslash, c] + rest)[2..] == rest;
  }

  // The scanning loops of the lexer run on a copy `p` of its `position`,
  // which the calling method stores back; `peek()` is `text[p + 1]` when
  // `p + 1 < |text|`.

  /**
   * One turn of the quoted-phrase loop of `next()` at `p`, which is not the
   * close quote: an escape pair when `peek()` finds a character after a
   * backslash, else one plain character.
   */
  method QuotedStep(esc: Escapes, text: string, p: nat, closeQuote: char, buffer: string, raw: string) returns (buffer': string, raw': string, p': nat)
    requires p < |text| && text[p] != closeQuote
    ensures p < p' <= |text|
    ensures PrependQuoted(buffer', raw', ScanQuoted(esc, text, p', closeQuote))
      == PrependQuoted(buffer, raw, ScanQuoted(esc, text, p, closeQuote))
  {
    var c := text[p];
    var nextChar := if p + 1 >= |text| then None else Some(text[p + 1]);
    if c == Backslash && nextChar.Some? {
      ScanQuotedEscape(esc, text, p, closeQuote, buffer, raw);
      return buffer + Resolve(esc, nextChar.value), raw + [Backslash, nextChar.value], p + 2;
    }
    ScanQuotedPlain(esc, text, p, closeQuote, buffer, raw);
    return buffer + [c], raw + [c], p + 1;
  }

  /**
   * One turn of the loop of `nextTokenIgnoreQuotes` at `p`, which is not
   * whitespace: an escape pair when `peek()` finds a character after a
   * backslash, else one plain character.
   */
  method WordStep(ws: char -> bool, esc: Escapes, text: string, p: nat, buffer: string, raw: string) returns (buffer': string, raw': string, p': nat)
    requires p < |text| && !ws(text[p])
    ensures p < p' <= |text|
    ensures Prepend(buffer', raw', ScanWord(ws, esc, text, p')) == Prepend(buffer, raw, ScanWord(ws, esc, text, p))
  {
    var c := text[p];
    var nextChar := if p + 1 >= |text| then None else Some(text[p + 1]);
    if c == Backslash && nextChar.Some? {
      ScanWordEscape(ws, esc, text, p, buffer, raw);
      return buffer + Resolve(esc, nextChar.value), raw + [Backslash, nextChar.value], p + 2;
    }
    ScanWordPlain(ws, esc, text, p, buffer, raw);
    return buffer + [c], raw + [c], p + 1;
  }

  /**
   * The quoted-phrase loop of `next()`, from `p0` to the first unescaped
   * `closeQuote`, resolving escapes by `esc`; `found` is false when the input
   * ends first.
   */
  method ScanToCloseQuote(esc: Escapes, text: string, p0: nat, closeQuote: char) returns (found: bool, buffer: string, raw: string, p: nat)
    requires p0 <= |text|
    ensures p0 <= p <= |text|
    ensures !found ==> ScanQuoted(esc, text, p0, closeQuote).None?
    ensures found ==> p < |text| && text[p] == closeQuote
    ensures found ==> PrependQuoted(buffer, raw, ScanQuoted(esc, text, p, closeQuote)) == ScanQuoted(esc, text, p0, closeQuote)
  {
    p := p0;
    buffer, raw := [], [];
    ghost var scan := ScanQuoted(esc, text, p, closeQuote);
    ScanQuotedStart(esc, text, p, closeQuote);
    while p < |text| && text[p] != closeQuote
      invariant p0 <= p <= |text|
      invariant PrependQuoted(buffer, raw, ScanQuoted(esc, text, p, closeQuote)) == scan
      decreases |text| - p
    {
      buffer, raw, p := QuotedStep(esc, text, p, closeQuote, buffer, raw);
    }
    found := p < |text|;
  }

  /** The loop of `nextTokenIgnoreQuotes`: a bare word from `p0` up to the first unescaped whitespace. */
  method ScanWordFrom(ws: char -> bool, esc: Escapes, text: string, p0: nat) returns (buffer: string, raw: string, p: nat)
    requires p0 <= |text|
    ensures ScanWord(ws, esc, text, p0) == Scan(buffer, raw, p)
  {
    p := p0;
    buffer, raw := [], [];
    ghost var scan := ScanWord(ws, esc, text, p);
    assert Prepend(buffer, raw, scan) == scan;
    while p < |text| && !ws(text[p])
      invariant p0 <= p <= |text|
      invariant Prepend(buffer, raw, ScanWord(ws, esc, text, p)) == scan
      decreases |text| - p
    {
      buffer, raw, p := WordStep(ws, esc, text, p, buffer, raw);
    }
    ScanWordStop(ws, esc, text, p, buffer, raw);
  }

  /** The loop of `consumeLeadingSpaces`: the whitespace run from `p0`. */
  method WhiteSpaceFrom(ws: char -> bool, text: string, p0: nat) returns (spaces: string, p: nat)
    requires p0 <= |text|
    ensures p == WhiteSpaceEnd(ws, text, p0)
    ensures spaces == text[p0..p]
  {
    p := p0;
    spaces := [];
    while p < |text| && ws(text[p])
      invariant p0 <= p <= |text|
      invariant WhiteSpaceEnd(ws, text, p) == WhiteSpaceEnd(ws, text, p0)
      invariant spaces == text[p0..p]
      decreases |text| - p
    {
      spaces := spaces + [text[p]];
      p := p + 1;
    }
  }

  class Lexer {
    /** `isWhiteSpace` of the character library, taken as given. */
    const isWhiteSpace: char -> bool
    var input: string
    var position: nat
    var quotes: map<char, char>
    var closeQuotes: set<char>

    constructor (isWhiteSpace: char -> bool)
      ensures this.isWhiteSpace == isWhiteSpace
      ensures input == [] && position == 0 && quotes == map[] && closeQuotes == {}
    {
      this.isWhiteSpace := isWhiteSpace;
      input := [];
      position := 0;
      quotes := map[];
      closeQuotes := {};
    }

    /** Stores the input without what `trimLeft` drops; the position is kept. */
    method SetInput(input: string)
      modifies this`input
      ensures this.input == TrimStart(IsJsWhiteSpace, input)
    {
      this.input := TrimStart(IsJsWhiteSpace, input);
    }

    /**
     * Registers each pair's open quote with its close quote, last one
     * winning, and adds every close quote to the escapable set.
     */
    method SetQuotes(pairs: seq<QuotePair>)
      modifies this`quotes, this`closeQuotes
      ensures quotes == Registry.SetAll(old(quotes), QuoteEntries(pairs))
      ensures closeQuotes == old(closeQuotes) + CloseQuotesOf(pairs)
    {
      for i := 0 to |pairs|
        invariant quotes == Registry.SetAll(old(quotes), QuoteEntries(pairs[..i]))
        invariant closeQuotes == old(closeQuotes) + CloseQuotesOf(pairs[..i])
      {
        SetQuotesStep(old(quotes), pairs, i);
        quotes := quotes[pairs[i].open := pairs[i].close];
        closeQuotes := closeQuotes + {pairs[i].close};
      }
      assert pairs[..|pairs|] == pairs;
    }

    method Reset()
      modifies this`position
      ensures position == 0
    {
      position := 0;
    }

    predicate Done()
      reads this
    {
      position >= |input|
    }

    /** The character after the current one, if any. */
    function Peek(): (r: Maybe<char>)
      reads this
      ensures r.Some? <==> position + 1 < |input|
      ensures r.Some? ==> r.value == input[position + 1]
    {
      if position + 1 >= |input| then None else Some(input[position + 1])
    }

    /**
     * Yields the next token, or `None` (`done: true`) at the end of input,
     * and moves past the token and its trailing whitespace.
     */
    method Next() returns (r: Maybe<Token>)
      modifies this`position
      ensures old(Done()) ==> r == None && position == old(position)
      ensures !old(Done()) ==> r.Some? && (r.value, position) == NextToken(isWhiteSpace, quotes, closeQuotes, input, old(position))
    {
      if Done() {
        return None;
      }
      if |quotes| == 0 {
        var t := NextTokenIgnoreQuotes();
        return Some(t);
      }
      var firstChar := input[position];
      if position == |input| - 1 {
        assert input[position..position + 1] == [firstChar];
        position := position + 1;
        return Some(Token([firstChar], [firstChar], []));
      }
      var initialPosition := position;
      if firstChar !in quotes {
        var t := NextTokenIgnoreQuotes();
        return Some(t);
      }
      var closeQuote := quotes[firstChar];
      position := position + 1;
      var t := NextQuoted(firstChar, closeQuote);
      if t.Some? {
        return t;
      }
      position := initialPosition;
      var w := NextTokenIgnoreQuotes();
      return Some(w);
    }

    /**
     * The quoted-phrase loop of `next()`, entered just after the open quote;
     * `None` when the input ends before an unescaped close quote.
     */
    method NextQuoted(openQuote: char, closeQuote: char) returns (r: Maybe<Token>)
      requires 0 < position <= |input| && input[position - 1] == openQuote
      modifies this`position
      ensures r.None? ==> QuotedToken(isWhiteSpace, ResolveCloseQuotes(closeQuotes), input, old(position) - 1, closeQuote).None?
      ensures r.Some? ==> QuotedToken(isWhiteSpace, ResolveCloseQuotes(closeQuotes), input, old(position) - 1, closeQuote) == Some((r.value, position))
    {
      var esc := ResolveCloseQuotes(closeQuotes);
      var start := position;
      var found, buffer, raw, p := ScanToCloseQuote(esc, input, start, closeQuote);
      if !found {
        position := p;
        return None;
      }
      QuotedTokenAt(isWhiteSpace, esc, input, start - 1, openQuote, closeQuote, buffer, raw, p);
      position := p + 1;
      var trailing := ConsumeLeadingSpaces();
      return Some(Token(buffer, [openQuote] + raw + [closeQuote], trailing));
    }

    /** A bare word up to the first unescaped whitespace character, quotes ignored. */
    method NextTokenIgnoreQuotes() returns (t: Token)
      requires position <= |input|
      modifies this`position
      ensures (t, position) == WordToken(isWhiteSpace, ResolveCloseQuotes(closeQuotes), input, old(position))
    {
      var esc := ResolveCloseQuotes(closeQuotes);
      var buffer, raw, p := ScanWordFrom(isWhiteSpace, esc, input, position);
      WordTokenOf(isWhiteSpace, esc, input, position, buffer, raw, p);
      position := p;
      var trailing := ConsumeLeadingSpaces();
      t := Token(buffer, raw, trailing);
    }

    /** Consumes the whitespace run at the current position and returns it. */
    method ConsumeLeadingSpaces() returns (spaces: string)
      requires position <= |input|
      modifies this`position
      ensures position == WhiteSpaceEnd(isWhiteSpace, input, old(position))
      ensures spaces == input[old(position)..position]
    {
      var p;
      spaces, p := WhiteSpaceFrom(isWhiteSpace, input, position);
      position := p;
    }

    /** Drains `next()`: every token from the current position on. */
    method Lex() returns (tokens: seq<Token>)
      modifies this`position
      ensures tokens == LexedTokens(isWhiteSpace, quotes, closeQuotes, input, old(position))
      ensures Done()
    {
      tokens := [];
      ghost var start := position;
      while true
        invariant tokens + LexedTokens(isWhiteSpace, quotes, closeQuotes, input, position) == LexedTokens(isWhiteSpace, quotes, closeQuotes, input, start)
        decreases |input| - position
      {
        ghost var before := position;
        var r := Next();
        if r.None? {
          assert tokens == tokens + LexedTokens(isWhiteSpace, quotes, closeQuotes, input, position);
          return;
        }
        LexedStep(isWhiteSpace, quotes, closeQuotes, input, before, r.value, position);
        AppendAssoc(tokens, [r.value], LexedTokens(isWhiteSpace, quotes, closeQuotes, input, position));
        tokens := tokens + [r.value];
      }
    }
  }
}
