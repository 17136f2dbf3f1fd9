// The `Token` record and `joinTokens` of src/framework/commands/args/tokens.ts.
module Tokens {
  /**
   * A lexed token: `value` has quotes stripped and escapes resolved, `raw` is
   * the text it was lexed from, and `trailing` is the whitespace after it.
   */
  datatype Token = Token(value: string, raw: string, trailing: string)

  /** The text joinTokens contributes for a list of tokens, front to back. */
  function Join(tokens: seq<Token>): string
  {
    if tokens == [] then []
    else
      var last := tokens[|tokens| - 1];
      Join(tokens[..|tokens| - 1]) + last.raw + last.trailing
  }

  /** Joining is a monoid homomorphism from token lists to strings. */
  lemma {:induction false} JoinAppend(a: seq<Token>, b: seq<Token>)
    ensures Join(a + b) == Join(a) + Join(b)
  {
    if b == [] {
      assert a + b == a;
    } else {
      var b' := b[..|b| - 1];
      assert (a + b)[..|a + b| - 1] == a + b';
      assert (a + b)[|a + b| - 1] == b[|b| - 1];
      JoinAppend(a, b');
    }
  }

  /** Each token contributes its raw text followed by its trailing text. */
  lemma JoinCons(t: Token, ts: seq<Token>)
    ensures Join([t] + ts) == t.raw + t.trailing + Join(ts)
  {
    JoinAppend([t], ts);
    assert [t][..0] == [];
  }

  /** Appending a token list to a longer prefix is appending to the prefix's parts. */
  lemma AppendAssoc(a: seq<Token>, b: seq<Token>, c: seq<Token>)
    ensures a + b + c == a + (b + c)
  {
  }

  /** A token that spells `s[p..q]` ahead of tokens that spell `s[q..]` spells `s[p..]`. */
  lemma JoinSpells(t: Token, ts: seq<Token>, s: string, p: nat, q: nat)
    requires p <= q <= |s| && t.raw + t.trailing == s[p..q] && Join(ts) == s[q..]
    ensures Join([t] + ts) == s[p..]
  {
    JoinCons(t, ts);
    assert s[p..] == s[p..q] + s[q..];
  }

  /** `joinTokens`: appends every token's raw and trailing text, in order. */
  method JoinTokens(tokens: seq<Token>) returns (str: string)
    ensures str == Join(tokens)
  {
    str := [];
    var i := 0;
    while i < |tokens|
      invariant 0 <= i <= |tokens|
      invariant str == Join(tokens[..i])
    {
      assert tokens[..i + 1][..i] == tokens[..i];
      str := str + tokens[i].raw;
      str := str + tokens[i].trailing;
      i := i + 1;
    }
    assert tokens[..i] == tokens;
  }
}
