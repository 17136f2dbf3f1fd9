// The classification rules of StandardParser. The two copies,
// src/core/commands/args/parser/StandardParser.ts and
// src/framework/commands/args/parser/StandardParser.ts, have the same logic,
// so one model serves both.
module StandardParser {
  import opened Tokens
  import opened ParserOutput

  /**
   * `table.get(raw)` is truthy: `raw` is registered with a non-empty id. An
   * empty id is falsy in the source, so such a prefix acts as unregistered.
   */
  predicate Registered(table: map<string, string>, raw: string)
  {
    raw in table && table[raw] != []
  }

  /**
   * One `next()` at position `p`: an option prefix takes the next token's
   * value (and is dropped when it is the last token); otherwise a flag prefix
   * adds its id; otherwise the token is positional. Options are tried first.
   */
  function Step(flags: map<string, string>, options: map<string, string>, input: seq<Token>, p: nat, out: ParserOutput): (r: (ParserOutput, nat))
    requires p < |input|
    ensures r.1 == p + 1 || r.1 == p + 2
    ensures r.1 <= |input|
    ensures Extends(out, r.0)
  {
    var raw := input[p].raw;
    if Registered(options, raw) then
      if p + 1 == |input| then (out, p + 1)
      else (AddOption(out, options[raw], input[p + 1].value), p + 2)
    else if Registered(flags, raw) then (out.(flags := out.flags + {flags[raw]}), p + 1)
    else (out.(ordered := out.ordered + [input[p]]), p + 1)
  }

  /** `parse()` from position `p`: `next()` repeated on one output until done. */
  function Run(flags: map<string, string>, options: map<string, string>, input: seq<Token>, p: nat, out: ParserOutput): ParserOutput
    decreases |input| - p
  {
    if p >= |input| then out
    else
      var (out', q) := Step(flags, options, input, p, out);
      Run(flags, options, input, q, out')
  }

  /** A parse keeps everything the output already held. */
  lemma {:induction false} RunExtends(flags: map<string, string>, options: map<string, string>, input: seq<Token>, p: nat, out: ParserOutput)
    ensures Extends(out, Run(flags, options, input, p, out))
    decreases |input| - p
  {
    if p < |input| {
      var (out', q) := Step(flags, options, input, p, out);
      RunExtends(flags, options, input, q, out');
      ExtendsTrans(out, out', Run(flags, options, input, q, out'));
    }
  }

  /** With nothing registered every token is positional: `ordered` is the input. */
  lemma {:induction false} UnregisteredAllOrdered(input: seq<Token>, p: nat, out: ParserOutput)
    requires p <= |input|
    ensures Run(map[], map[], input, p, out) == out.(ordered := out.ordered + input[p..])
    decreases |input| - p
  {
    if p == |input| {
      assert out.ordered + input[p..] == out.ordered;
    } else {
      UnregisteredAllOrdered(input, p + 1, out.(ordered := out.ordered + [input[p]]));
      assert out.ordered + [input[p]] + input[p + 1..] == out.ordered + input[p..];
    }
  }

  /**
   * Every positional token the parse adds is an input token whose raw text
   * is neither a registered option nor a registered flag.
   */
  lemma {:induction false} OrderedUnregistered(flags: map<string, string>, options: map<string, string>, input: seq<Token>, p: nat, out: ParserOutput)
    ensures |out.ordered| <= |Run(flags, options, input, p, out).ordered|
    ensures forall i :: |out.ordered| <= i < |Run(flags, options, input, p, out).ordered| ==>
      var t := Run(flags, options, input, p, out).ordered[i];
      t in input && !Registered(options, t.raw) && !Registered(flags, t.raw)
    decreases |input| - p
  {
    RunExtends(flags, options, input, p, out);
    if p < |input| {
      var (out', q) := Step(flags, options, input, p, out);
      var r := Run(flags, options, input, q, out');
      assert Run(flags, options, input, p, out) == r;
      OrderedUnregistered(flags, options, input, q, out');
      RunExtends(flags, options, input, q, out');
      forall i | |out.ordered| <= i < |out'.ordered|
        ensures r.ordered[i] in input && !Registered(options, r.ordered[i].raw) && !Registered(flags, r.ordered[i].raw)
      {
        assert r.ordered[i] == out'.ordered[i] == input[p];
      }
    }
  }

  /** Every flag the parse adds is the id registered for some input token's raw text. */
  lemma {:induction false} FlagsFromInput(flags: map<string, string>, options: map<string, string>, input: seq<Token>, p: nat, out: ParserOutput)
    ensures forall f :: f in Run(flags, options, input, p, out).flags ==>
      f in out.flags || exists i :: p <= i < |input| && Registered(flags, input[i].raw) && flags[input[i].raw] == f
    decreases |input| - p
  {
    if p < |input| {
      var (out', q) := Step(flags, options, input, p, out);
      FlagsFromInput(flags, options, input, q, out');
    }
  }

  /**
   * A registered option followed by a token records that token's value as
   * the option's newest value and consumes both; options win over flags.
   */
  lemma OptionTakesNextValue(flags: map<string, string>, options: map<string, string>, input: seq<Token>, p: nat, out: ParserOutput)
    requires p + 1 < |input| && Registered(options, input[p].raw)
    ensures var (r, q) := Step(flags, options, input, p, out);
      && q == p + 2
      && r.options[options[input[p].raw]][|r.options[options[input[p].raw]]| - 1] == input[p + 1].value
      && r.ordered == out.ordered && r.flags == out.flags
  {
  }

  /** An option prefix that is the last token is consumed and records nothing. */
  lemma DanglingOptionDropped(flags: map<string, string>, options: map<string, string>, input: seq<Token>, out: ParserOutput)
    requires |input| > 0 && Registered(options, input[|input| - 1].raw)
    ensures Step(flags, options, input, |input| - 1, out) == (out, |input|)
  {
  }
}
