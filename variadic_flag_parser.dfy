// The classification rules of src/framework/commands/args/parser/VariadicFlagParser.ts:
// an option takes every following token up to the next registered prefix as
// one multi-word value, and positional tokens are discarded.
module VariadicFlagParser {
  import opened Tokens
  import opened ParserOutput
  import StandardParser

  /** `flags.has(raw) || options.has(raw)`: presence, whatever the id. */
  predicate IsPrefix(flags: map<string, string>, options: map<string, string>, raw: string)
  {
    raw in flags || raw in options
  }

  /** The first position from `q` on whose token is a registered prefix, or the end. */
  function ValueEnd(flags: map<string, string>, options: map<string, string>, input: seq<Token>, q: nat): (e: nat)
    requires q <= |input|
    ensures q <= e <= |input|
    ensures forall i :: q <= i < e ==> !IsPrefix(flags, options, input[i].raw)
    ensures e == |input| || IsPrefix(flags, options, input[e].raw)
    decreases |input| - q
  {
    if q == |input| || IsPrefix(flags, options, input[q].raw) then q
    else ValueEnd(flags, options, input, q + 1)
  }

  /** Each token's value followed by its trailing whitespace, concatenated in order. */
  function Spelled(tokens: seq<Token>): string
  {
    if tokens == [] then []
    else
      var last := tokens[|tokens| - 1];
      Spelled(tokens[..|tokens| - 1]) + last.value + last.trailing
  }

  /** Spelling one more token appends its value and trailing whitespace. */
  lemma SpelledSnoc(input: seq<Token>, a: nat, b: nat)
    requires a <= b < |input|
    ensures Spelled(input[a..b + 1]) == Spelled(input[a..b]) + input[b].value + input[b].trailing
  {
    assert input[a..b + 1][..b - a] == input[a..b];
  }

  /**
   * One `next()` at position `p`: an option prefix followed by a token takes
   * that token and every token up to the next registered prefix as one
   * value; a dangling option is dropped; a flag prefix adds its id; any other
   * token is skipped.
   */
  function Step(flags: map<string, string>, options: map<string, string>, input: seq<Token>, p: nat, out: ParserOutput): (r: (ParserOutput, nat))
    requires p < |input|
    ensures p < r.1 <= |input|
    ensures Extends(out, r.0) && r.0.ordered == out.ordered
  {
    var raw := input[p].raw;
    if StandardParser.Registered(options, raw) then
      if p + 1 == |input| then (out, p + 1)
      else
        var e := ValueEnd(flags, options, input, p + 2);
        (AddOption(out, options[raw], Spelled(input[p + 1..e])), e)
    else if StandardParser.Registered(flags, raw) then (out.(flags := out.flags + {flags[raw]}), p + 1)
    else (out, p + 1)
  }

  /** `parse()` from position `p`. */
  function Run(flags: map<string, string>, options: map<string, string>, input: seq<Token>, p: nat, out: ParserOutput): ParserOutput
    decreases |input| - p
  {
    if p >= |input| then out
    else
      var (out', q) := Step(flags, options, input, p, out);
      Run(flags, options, input, q, out')
  }

  /** The variadic parser never writes positional tokens, and keeps what the output held. */
  lemma {:induction false} RunNeverOrders(flags: map<string, string>, options: map<string, string>, input: seq<Token>, p: nat, out: ParserOutput)
    ensures Run(flags, options, input, p, out).ordered == out.ordered
    ensures Extends(out, Run(flags, options, input, p, out))
    decreases |input| - p
  {
    if p < |input| {
      var (out', q) := Step(flags, options, input, p, out);
      RunNeverOrders(flags, options, input, q, out');
      ExtendsTrans(out, out', Run(flags, options, input, q, out'));
    }
  }

  /**
   * An option followed by a token: its new value spells out the tokens from
   * the next one (taken even if it is itself a prefix) up to, not including,
   * the first later token that is a registered flag or option, and the step
   * stops exactly there.
   */
  lemma OptionValueRun(flags: map<string, string>, options: map<string, string>, input: seq<Token>, p: nat, out: ParserOutput)
    requires p + 1 < |input| && StandardParser.Registered(options, input[p].raw)
    ensures var (r, e) := Step(flags, options, input, p, out);
      var values := r.options[options[input[p].raw]];
      && p + 2 <= e <= |input|
      && values[|values| - 1] == Spelled(input[p + 1..e])
      && (forall i :: p + 2 <= i < e ==> !IsPrefix(flags, options, input[i].raw))
      && (e == |input| || IsPrefix(flags, options, input[e].raw))
  {
  }

  /** Every flag the parse adds is the id registered for some input token's raw text. */
  lemma {:induction false} FlagsFromInput(flags: map<string, string>, options: map<string, string>, input: seq<Token>, p: nat, out: ParserOutput)
    ensures forall f :: f in Run(flags, options, input, p, out).flags ==>
      f in out.flags || exists i :: p <= i < |input| && StandardParser.Registered(flags, input[i].raw) && flags[input[i].raw] == f
    decreases |input| - p
  {
    if p < |input| {
      var (out', q) := Step(flags, options, input, p, out);
      FlagsFromInput(flags, options, input, q, out');
    }
  }
}
