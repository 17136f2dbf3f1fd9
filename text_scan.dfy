// Specification functions shared by the two lexers, src/core/commands/args/Lexer.ts
// and src/framework/commands/args/Lexer.ts: the whitespace run, the bare word
// and the quoted phrase they both scan with position-advancing loops.
module TextScan {
  import opened Monads
  import opened Tokens
  import Registry

  /** The escape character. */
  const Backslash: char := '\\'

  /**
   * A pair of open and close quotes, each one UTF-16 code unit; the lexers
   * expect neither to be whitespace or a backslash.
   */
  datatype QuotePair = QuotePair(open: char, close: char)

  /** The `(open, close)` entries that `setQuotes` sets, in order. */
  function QuoteEntries(pairs: seq<QuotePair>): (r: seq<(char, char)>)
    ensures |r| == |pairs|
    ensures forall i :: 0 <= i < |pairs| ==> r[i] == (pairs[i].open, pairs[i].close)
  {
    if pairs == [] then []
    else QuoteEntries(pairs[..|pairs| - 1]) + [(pairs[|pairs| - 1].open, pairs[|pairs| - 1].close)]
  }

  /**
   * How a lexer resolves the escape `\c`: the core lexer yields `c` for every
   * `c`; the framework lexer yields `c` only for a registered close quote or a
   * backslash and keeps `\c` otherwise.
   */
  datatype Escapes = ResolveAll | ResolveCloseQuotes(closeQuotes: set<char>)

  /** The value text contributed by the escape `\c`. */
  function Resolve(esc: Escapes, c: char): (r: string)
    ensures 1 <= |r| <= 2 && r[|r| - 1] == c
    ensures |r| == 2 <==> esc.ResolveCloseQuotes? && c !in esc.closeQuotes && c != Backslash
    ensures |r| == 2 ==> r[0] == Backslash
  {
    match esc
    case ResolveAll => [c]
    case ResolveCloseQuotes(closeQuotes) =>
      if c in closeQuotes || c == Backslash then [c] else [Backslash, c]
  }

  /**
   * The value a raw token body denotes: every backslash that has a character
   * after it forms an escape pair resolved by `Resolve`; any other character,
   * including a final lone backslash, stands for itself.
   */
  function Unescape(esc: Escapes, raw: string): string
  {
    if raw == [] then []
    else if raw[0] == Backslash && |raw| >= 2 then Resolve(esc, raw[1]) + Unescape(esc, raw[2..])
    else [raw[0]] + Unescape(esc, raw[1..])
  }

  /** A scanned token body: resolved value, raw text, and the position after it. */
  datatype Scan = Scan(value: string, raw: string, end: nat)

  /** Prefixes an already scanned value and raw text to a scan. */
  function Prepend(value: string, raw: string, sc: Scan): Scan
  {
    Scan(value + sc.value, raw + sc.raw, sc.end)
  }

  /** The end of the maximal whitespace run that starts at `p`. */
  function WhiteSpaceEnd(ws: char -> bool, s: string, p: nat): (e: nat)
    requires p <= |s|
    ensures p <= e <= |s|
    ensures forall k :: p <= k < e ==> ws(s[k])
    ensures e == |s| || !ws(s[e])
    decreases |s| - p
  {
    if p < |s| && ws(s[p]) then WhiteSpaceEnd(ws, s, p + 1) else p
  }

  /**
   * The characters `trimLeft` removes: the WhiteSpace and LineTerminator code
   * points of ECMAScript (sections 12.2 and 12.3 of ECMA-262), that is tab,
   * line tabulation, form feed, the byte order mark, the space separators of
   * Unicode category Zs, line feed, carriage return and the line and
   * paragraph separators. This is not the lexer's `isWhiteSpace`: U+0085 is
   * not among them and U+FEFF is.
   */
  predicate IsJsWhiteSpace(c: char)
  {
    c == '\t' || c == '\U{000B}' || c == '\U{000C}' || c == '\U{FEFF}'
    || c == ' ' || c == '\U{00A0}' || c == '\U{1680}' || '\U{2000}' <= c <= '\U{200A}'
    || c == '\U{202F}' || c == '\U{205F}' || c == '\U{3000}'
    || c == '\n' || c == '\r' || c == '\U{2028}' || c == '\U{2029}'
  }

  /** The prefix of `s` that `ws` holds for is dropped: `trimLeft` when `ws` is `IsJsWhiteSpace`. */
  function TrimStart(ws: char -> bool, s: string): (t: string)
    ensures exists k :: 0 <= k <= |s| && t == s[k..] && (forall j :: 0 <= j < k ==> ws(s[j]))
    ensures t == [] || !ws(t[0])
  {
    var k := WhiteSpaceEnd(ws, s, 0);
    assert s[k..] == [] || s[k..][0] == s[k];
    s[k..]
  }

  /** `trimLeft` drops a leading byte order mark and keeps a leading U+0085. */
  lemma TrimLeftExamples()
    ensures TrimStart(IsJsWhiteSpace, "\U{FEFF}a") == "a"
    ensures TrimStart(IsJsWhiteSpace, "\U{0085}") == "\U{0085}"
  {
    assert WhiteSpaceEnd(IsJsWhiteSpace, "\U{FEFF}a", 0) == 1;
    assert WhiteSpaceEnd(IsJsWhiteSpace, "\U{0085}", 0) == 0;
  }

  /** A non-empty slice is its first character followed by the rest. */
  lemma SliceCons(s: string, p: nat, e: nat)
    requires p < e <= |s|
    ensures s[p..e] == [s[p]] + s[p + 1..e]
  {
  }

  /** A slice of two or more characters is its first two followed by the rest. */
  lemma SliceCons2(s: string, p: nat, e: nat)
    requires p + 1 < e <= |s|
    ensures s[p..e] == [s[p], s[p + 1]] + s[p + 2..e]
  {
  }

  /**
   * A bare word from `p`: it stops at the first whitespace character that is
   * not escaped, and an escape is a backslash that is not the last character.
   */
  function ScanWord(ws: char -> bool, esc: Escapes, s: string, p: nat): (r: Scan)
    requires p <= |s|
    ensures p <= r.end <= |s|
    ensures r.raw == s[p..(r.end)]
    ensures r.end == |s| || ws(s[r.end])
    decreases |s| - p
  {
    if p == |s| || ws(s[p]) then Scan([], [], p)
    else if s[p] == Backslash && p + 1 < |s| then
      var rest := ScanWord(ws, esc, s, p + 2);
      SliceCons2(s, p, rest.end);
      Prepend(Resolve(esc, s[p + 1]), [s[p], s[p + 1]], rest)
    else
      var rest := ScanWord(ws, esc, s, p + 1);
      SliceCons(s, p, rest.end);
      Prepend([s[p]], [s[p]], rest)
  }

  /**
   * The inside of a quoted phrase from `p` (just after the open quote), up to
   * and including the first `close` that is not escaped. `end` is the position
   * after the close quote and `raw` excludes it; `None` when the input ends first.
   */
  function ScanQuoted(esc: Escapes, s: string, p: nat, close: char): (r: Maybe<Scan>)
    requires p <= |s|
    ensures r.Some? ==> p < r.value.end <= |s| && s[r.value.end - 1] == close
    ensures r.Some? ==> r.value.raw == s[p..(r.value.end - 1)]
    decreases |s| - p
  {
    if p == |s| then None
    else if s[p] == close then Some(Scan([], [], p + 1))
    else if s[p] == Backslash && p + 1 < |s| then
      match ScanQuoted(esc, s, p + 2, close)
      case None => None
      case Some(sc) =>
        SliceCons2(s, p, sc.end - 1);
        Some(Prepend(Resolve(esc, s[p + 1]), [s[p], s[p + 1]], sc))
    else
      match ScanQuoted(esc, s, p + 1, close)
      case None => None
      case Some(sc) =>
        SliceCons(s, p, sc.end - 1);
        Some(Prepend([s[p]], [s[p]], sc))
  }

  /** Prefixes an already scanned value and raw text to a quoted scan, if any. */
  function PrependQuoted(value: string, raw: string, r: Maybe<Scan>): Maybe<Scan>
  {
    match r
    case None => None
    case Some(sc) => Some(Prepend(value, raw, sc))
  }

  /** A bare word's value is its raw text with the escapes resolved. */
  lemma {:induction false} ScanWordUnescapes(ws: char -> bool, esc: Escapes, s: string, p: nat)
    requires p <= |s|
    ensures ScanWord(ws, esc, s, p).value == Unescape(esc, ScanWord(ws, esc, s, p).raw)
    decreases |s| - p
  {
    var r := ScanWord(ws, esc, s, p);
    if p == |s| || ws(s[p]) {
    } else if s[p] == Backslash && p + 1 < |s| {
      ScanWordUnescapes(ws, esc, s, p + 2);
      var rest := ScanWord(ws, esc, s, p + 2);
      assert r.raw == [s[p], s[p + 1]] + rest.raw;
      assert r.raw[2..] == rest.raw;
    } else {
      ScanWordUnescapes(ws, esc, s, p + 1);
      var rest := ScanWord(ws, esc, s, p + 1);
      assert r.raw == [s[p]] + rest.raw;
      assert r.raw[1..] == rest.raw;
    }
  }

  /** A quoted phrase's value is its raw text, without quotes, with the escapes resolved. */
  lemma {:induction false} ScanQuotedUnescapes(esc: Escapes, s: string, p: nat, close: char)
    requires p <= |s|
    ensures ScanQuoted(esc, s, p, close).Some? ==>
      ScanQuoted(esc, s, p, close).value.value == Unescape(esc, ScanQuoted(esc, s, p, close).value.raw)
    decreases |s| - p
  {
    if p == |s| || s[p] == close {
    } else if s[p] == Backslash && p + 1 < |s| {
      ScanQuotedUnescapes(esc, s, p + 2, close);
      if ScanQuoted(esc, s, p, close).Some? {
        var r := ScanQuoted(esc, s, p, close).value;
        var rest := ScanQuoted(esc, s, p + 2, close).value;
        assert r.raw == [s[p], s[p + 1]] + rest.raw;
        assert r.raw[2..] == rest.raw;
      }
    } else {
      ScanQuotedUnescapes(esc, s, p + 1, close);
      if ScanQuoted(esc, s, p, close).Some? {
        var r := ScanQuoted(esc, s, p, close).value;
        var rest := ScanQuoted(esc, s, p + 1, close).value;
        assert r.raw == [s[p]] + rest.raw;
        assert r.raw[1..] == rest.raw;
      }
    }
  }

  /** Prefixing twice is prefixing the concatenations once. */
  lemma PrependTwice(v1: string, r1: string, v2: string, r2: string, sc: Scan)
    ensures Prepend(v1 + v2, r1 + r2, sc) == Prepend(v1, r1, Prepend(v2, r2, sc))
  {
    assert (v1 + v2) + sc.value == v1 + (v2 + sc.value);
    assert (r1 + r2) + sc.raw == r1 + (r2 + sc.raw);
  }

  /** A word scan that has consumed `value`/`raw` goes on over an escape pair. */
  lemma ScanWordEscape(ws: char -> bool, esc: Escapes, s: string, p: nat, value: string, raw: string)
    requires p + 1 < |s| && !ws(s[p]) && s[p] == Backslash
    ensures Prepend(value + Resolve(esc, s[p + 1]), raw + [s[p], s[p + 1]], ScanWord(ws, esc, s, p + 2))
      == Prepend(value, raw, ScanWord(ws, esc, s, p))
  {
    PrependTwice(value, raw, Resolve(esc, s[p + 1]), [s[p], s[p + 1]], ScanWord(ws, esc, s, p + 2));
  }

  /** A word scan that has consumed `value`/`raw` goes on over a plain character. */
  lemma ScanWordPlain(ws: char -> bool, esc: Escapes, s: string, p: nat, value: string, raw: string)
    requires p < |s| && !ws(s[p]) && !(s[p] == Backslash && p + 1 < |s|)
    ensures Prepend(value + [s[p]], raw + [s[p]], ScanWord(ws, esc, s, p + 1))
      == Prepend(value, raw, ScanWord(ws, esc, s, p))
  {
    PrependTwice(value, raw, [s[p]], [s[p]], ScanWord(ws, esc, s, p + 1));
  }

  /** A quoted scan that has consumed `value`/`raw` goes on over an escape pair. */
  lemma ScanQuotedEscape(esc: Escapes, s: string, p: nat, close: char, value: string, raw: string)
    requires p + 1 < |s| && s[p] != close && s[p] == Backslash
    ensures PrependQuoted(value + Resolve(esc, s[p + 1]), raw + [s[p], s[p + 1]], ScanQuoted(esc, s, p + 2, close))
      == PrependQuoted(value, raw, ScanQuoted(esc, s, p, close))
  {
    match ScanQuoted(esc, s, p + 2, close)
    case None =>
    case Some(sc) => PrependTwice(value, raw, Resolve(esc, s[p + 1]), [s[p], s[p + 1]], sc);
  }

  /** A quoted scan that has consumed `value`/`raw` goes on over a plain character. */
  lemma ScanQuotedPlain(esc: Escapes, s: string, p: nat, close: char, value: string, raw: string)
    requires p < |s| && s[p] != close && !(s[p] == Backslash && p + 1 < |s|)
    ensures PrependQuoted(value + [s[p]], raw + [s[p]], ScanQuoted(esc, s, p + 1, close))
      == PrependQuoted(value, raw, ScanQuoted(esc, s, p, close))
  {
    match ScanQuoted(esc, s, p + 1, close)
    case None =>
    case Some(sc) => PrependTwice(value, raw, [s[p]], [s[p]], sc);
  }

  /** A word scan stops at whitespace or at the end of input. */
  lemma ScanWordStop(ws: char -> bool, esc: Escapes, s: string, p: nat, value: string, raw: string)
    requires p <= |s| && (p == |s| || ws(s[p]))
    ensures Prepend(value, raw, ScanWord(ws, esc, s, p)) == Scan(value, raw, p)
  {
    assert value + [] == value && raw + [] == raw;
  }

  /** Nothing consumed yet: the prefix is empty. */
  lemma ScanQuotedStart(esc: Escapes, s: string, p: nat, close: char)
    requires p <= |s|
    ensures PrependQuoted([], [], ScanQuoted(esc, s, p, close)) == ScanQuoted(esc, s, p, close)
  {
    match ScanQuoted(esc, s, p, close)
    case None =>
    case Some(sc) => assert [] + sc.value == sc.value && [] + sc.raw == sc.raw;
  }

  /** A quoted scan stops just after the close quote. */
  lemma ScanQuotedStop(esc: Escapes, s: string, p: nat, close: char, value: string, raw: string)
    requires p < |s| && s[p] == close
    ensures PrependQuoted(value, raw, ScanQuoted(esc, s, p, close)) == Some(Scan(value, raw, p + 1))
  {
    assert value + [] == value && raw + [] == raw;
  }

  /**
   * The token of a bare word at `p`, and the position after it and after the
   * whitespace run that follows it (its `trailing`).
   */
  function WordToken(ws: char -> bool, esc: Escapes, s: string, p: nat): (r: (Token, nat))
    requires p <= |s|
    ensures p <= r.1 <= |s|
    ensures p < |s| ==> p < r.1
    ensures r.0.raw + r.0.trailing == s[p..(r.1)]
    ensures forall k :: 0 <= k < |r.0.trailing| ==> ws(r.0.trailing[k])
    ensures r.1 == |s| || !ws(s[r.1])
  {
    var sc := ScanWord(ws, esc, s, p);
    var e := WhiteSpaceEnd(ws, s, sc.end);
    assert s[p..sc.end] + s[sc.end..e] == s[p..e];
    (Token(sc.value, sc.raw, s[sc.end..e]), e)
  }

  /**
   * The token of a quoted phrase whose open quote is at `p`, when the close
   * quote `close` occurs unescaped later on; `None` when it never does.
   */
  function QuotedToken(ws: char -> bool, esc: Escapes, s: string, p: nat, close: char): (r: Maybe<(Token, nat)>)
    requires p < |s|
    ensures r.Some? ==> p + 2 <= r.value.1 <= |s|
    ensures r.Some? ==> r.value.0.raw + r.value.0.trailing == s[p..(r.value.1)]
    ensures r.Some? ==> |r.value.0.raw| >= 2 && r.value.0.raw[0] == s[p] && r.value.0.raw[|r.value.0.raw| - 1] == close
    ensures r.Some? ==> forall k :: 0 <= k < |r.value.0.trailing| ==> ws(r.value.0.trailing[k])
    ensures r.Some? ==> r.value.1 == |s| || !ws(s[r.value.1])
  {
    match ScanQuoted(esc, s, p + 1, close)
    case None => None
    case Some(sc) =>
      var e := WhiteSpaceEnd(ws, s, sc.end);
      var raw := [s[p]] + sc.raw + [close];
      assert raw == s[p..sc.end] by {
        assert s[p..sc.end] == [s[p]] + s[p + 1..sc.end - 1] + [s[sc.end - 1]];
      }
      assert s[p..sc.end] + s[sc.end..e] == s[p..e];
      Some((Token(sc.value, raw, s[sc.end..e]), e))
  }

  /** The word token built from a finished word scan. */
  lemma WordTokenOf(ws: char -> bool, esc: Escapes, s: string, p: nat, value: string, raw: string, q: nat)
    requires p <= q <= |s| && ScanWord(ws, esc, s, p) == Scan(value, raw, q)
    ensures WordToken(ws, esc, s, p) == (Token(value, raw, s[q..WhiteSpaceEnd(ws, s, q)]), WhiteSpaceEnd(ws, s, q))
  {
  }

  /** The quoted token built from a finished quoted scan. */
  lemma QuotedTokenOf(ws: char -> bool, esc: Escapes, s: string, p: nat, close: char, value: string, raw: string, q: nat)
    requires p < q <= |s| && ScanQuoted(esc, s, p + 1, close) == Some(Scan(value, raw, q))
    ensures QuotedToken(ws, esc, s, p, close)
      == Some((Token(value, [s[p]] + raw + [close], s[q..WhiteSpaceEnd(ws, s, q)]), WhiteSpaceEnd(ws, s, q)))
  {
  }

  /**
   * A quoted scan from `p + 1` that has gathered `value` and `raw` and stands
   * on the close quote at `q` yields the token of those, closed there.
   */
  lemma QuotedTokenAt(ws: char -> bool, esc: Escapes, s: string, p: nat, open: char, close: char, value: string, raw: string, q: nat)
    requires p < q < |s| && s[p] == open && s[q] == close
    requires PrependQuoted(value, raw, ScanQuoted(esc, s, q, close)) == ScanQuoted(esc, s, p + 1, close)
    ensures QuotedToken(ws, esc, s, p, close)
      == Some((Token(value, [open] + raw + [close], s[q + 1..WhiteSpaceEnd(ws, s, q + 1)]), WhiteSpaceEnd(ws, s, q + 1)))
  {
    ScanQuotedStop(esc, s, q, close, value, raw);
    QuotedTokenOf(ws, esc, s, p, close, value, raw, q + 1);
  }
}
