// The parser cursor of src/framework/commands/args/parser/Parser.ts together
// with the registration and `next` logic its subclasses share
// (StandardParser, VariadicFlagParser). The subclasses differ only in how an
// option is parsed and what happens to a positional token, so one class with
// a `strategy` stands for all of them; the rules of each live in the
// StandardParser and VariadicFlagParser modules.
module Parser {
  import opened Monads
  import opened Tokens
  import opened ParserOutput
  import Registry
  import StandardParser
  import VariadicFlagParser

  /** The id of a flag or option and the prefixes that name it. */
  datatype FlagMetadata = FlagMetadata(id: string, prefixes: seq<string>)

  /** Which subclass the parser is. */
  datatype Strategy = Standard | Variadic

  /** The `(prefix, id)` pairs one metadata entry registers, in prefix order. */
  function IdPairs(m: FlagMetadata): (r: seq<(string, string)>)
    ensures |r| == |m.prefixes|
    ensures forall j :: 0 <= j < |r| ==> r[j] == (m.prefixes[j], m.id)
  {
    seq(|m.prefixes|, j requires 0 <= j < |m.prefixes| => (m.prefixes[j], m.id))
  }

  /** Every `(prefix, id)` pair a registration call sets, in the order it sets them. */
  function PrefixPairs(entries: seq<FlagMetadata>): seq<(string, string)>
  {
    if entries == [] then []
    else PrefixPairs(entries[..|entries| - 1]) + IdPairs(entries[|entries| - 1])
  }

  /** A prefix is set by a registration call exactly when some entry lists it. */
  lemma {:induction false} PrefixPairsKeys(entries: seq<FlagMetadata>, prefix: string)
    ensures Registry.SetsKey(PrefixPairs(entries), prefix)
      <==> exists i, j :: 0 <= i < |entries| && 0 <= j < |entries[i].prefixes| && entries[i].prefixes[j] == prefix
  {
    if entries != [] {
      var init := entries[..|entries| - 1];
      var last := entries[|entries| - 1];
      var pairs := PrefixPairs(entries);
      assert pairs == PrefixPairs(init) + IdPairs(last);
      PrefixPairsKeys(init, prefix);
      if Registry.SetsKey(pairs, prefix) {
        var k :| 0 <= k < |pairs| && pairs[k].0 == prefix;
        if k < |PrefixPairs(init)| {
          assert PrefixPairs(init)[k].0 == prefix;
          var i, j :| 0 <= i < |init| && 0 <= j < |init[i].prefixes| && init[i].prefixes[j] == prefix;
          assert entries[i] == init[i];
        } else {
          var j := k - |PrefixPairs(init)|;
          assert IdPairs(last)[j].0 == prefix;
          assert entries[|entries| - 1].prefixes[j] == prefix;
        }
      }
      if exists i, j :: 0 <= i < |entries| && 0 <= j < |entries[i].prefixes| && entries[i].prefixes[j] == prefix {
        var i, j :| 0 <= i < |entries| && 0 <= j < |entries[i].prefixes| && entries[i].prefixes[j] == prefix;
        if i < |init| {
          assert init[i] == entries[i];
          var k :| 0 <= k < |PrefixPairs(init)| && PrefixPairs(init)[k].0 == prefix;
          assert pairs[k] == PrefixPairs(init)[k];
        } else {
          assert pairs[|PrefixPairs(init)| + j] == IdPairs(last)[j];
        }
      }
    }
  }

  /** One `next()` of the parser with the given strategy. */
  function StepOf(strategy: Strategy, flags: map<string, string>, options: map<string, string>, input: seq<Token>, p: nat, out: ParserOutput): (r: (ParserOutput, nat))
    requires p < |input|
    ensures p < r.1 <= |input|
  {
    match strategy
    case Standard => StandardParser.Step(flags, options, input, p, out)
    case Variadic => VariadicFlagParser.Step(flags, options, input, p, out)
  }

  /** `parse()` from position `p` with the given strategy. */
  function RunOf(strategy: Strategy, flags: map<string, string>, options: map<string, string>, input: seq<Token>, p: nat, out: ParserOutput): ParserOutput
  {
    match strategy
    case Standard => StandardParser.Run(flags, options, input, p, out)
    case Variadic => VariadicFlagParser.Run(flags, options, input, p, out)
  }

  /** A parse from `p` is one step followed by the parse from where the step ended. */
  lemma RunOfUnfold(strategy: Strategy, flags: map<string, string>, options: map<string, string>, input: seq<Token>, p: nat, out: ParserOutput)
    requires p < |input|
    ensures RunOf(strategy, flags, options, input, p, out)
      == RunOf(strategy, flags, options, input, StepOf(strategy, flags, options, input, p, out).1, StepOf(strategy, flags, options, input, p, out).0)
  {
  }

  /**
   * The value-gathering loop of `VariadicFlagParser.parseOption`, run on a
   * copy `p` of the parser's position from the token `q` after the option
   * prefix: that token's value and trailing whitespace, then each following
   * token's, up to the next registered flag or option prefix or the end.
   */
  method CollectVariadic(flags: map<string, string>, options: map<string, string>, input: seq<Token>, q: nat) returns (value: string, p: nat)
    requires q < |input|
    ensures p == VariadicFlagParser.ValueEnd(flags, options, input, q + 1)
    ensures value == VariadicFlagParser.Spelled(input[q..p])
  {
    var token := input[q];
    value := token.value + token.trailing;
    p := q + 1;
    VariadicFlagParser.SpelledSnoc(input, q, q);
    assert value == VariadicFlagParser.Spelled(input[q..p]);
    while p < |input|
      invariant q + 1 <= p <= |input|
      invariant VariadicFlagParser.ValueEnd(flags, options, input, p) == VariadicFlagParser.ValueEnd(flags, options, input, q + 1)
      invariant value == VariadicFlagParser.Spelled(input[q..p])
      decreases |input| - p
    {
      token := input[p];
      if token.raw in flags || token.raw in options {
        break;
      }
      VariadicFlagParser.SpelledSnoc(input, q, p);
      value := value + token.value + token.trailing;
      p := p + 1;
    }
  }

  class Parser {
    const strategy: Strategy
    var input: seq<Token>
    var position: nat
    var registeredFlags: map<string, string>
    var registeredOptions: map<string, string>

    constructor (strategy: Strategy)
      ensures this.strategy == strategy
      ensures input == [] && position == 0 && registeredFlags == map[] && registeredOptions == map[]
    {
      this.strategy := strategy;
      input := [];
      position := 0;
      registeredFlags := map[];
      registeredOptions := map[];
    }

    /** Replaces the token list and rewinds. */
    method SetInput(input: seq<Token>)
      modifies this`input, this`position
      ensures this.input == input && position == 0
    {
      Reset();
      this.input := input;
    }

    predicate Done()
      reads this
    {
      position >= |input|
    }

    method Reset()
      modifies this`position
      ensures position == 0
    {
      position := 0;
    }

    method Advance(n: nat)
      modifies this`position
      ensures position == old(position) + n
    {
      position := position + n;
    }

    /** Maps every prefix of every entry to the entry's id; a later entry wins. */
    method RegisterFlags(flags: seq<FlagMetadata>)
      modifies this`registeredFlags
      ensures registeredFlags == Registry.SetAll(old(registeredFlags), PrefixPairs(flags))
    {
      registeredFlags := Register(registeredFlags, flags);
    }

    /** Maps every prefix of every entry to the entry's id; a later entry wins. */
    method RegisterOptions(options: seq<FlagMetadata>)
      modifies this`registeredOptions
      ensures registeredOptions == Registry.SetAll(old(registeredOptions), PrefixPairs(options))
    {
      registeredOptions := Register(registeredOptions, options);
    }

    /** The two nested registration loops, setting one prefix at a time on `table`. */
    static method Register(table: map<string, string>, entries: seq<FlagMetadata>) returns (r: map<string, string>)
      ensures r == Registry.SetAll(table, PrefixPairs(entries))
    {
      r := table;
      for i := 0 to |entries|
        invariant r == Registry.SetAll(table, PrefixPairs(entries[..i]))
      {
        var m := entries[i];
        assert entries[..i + 1][..i] == entries[..i];
        ghost var before := PrefixPairs(entries[..i]);
        assert before + IdPairs(m)[..0] == before;
        for j := 0 to |m.prefixes|
          invariant r == Registry.SetAll(table, before + IdPairs(m)[..j])
        {
          Registry.SetAllSnoc(table, IdPairs(m), before, j);
          r := r[m.prefixes[j] := m.id];
        }
        assert IdPairs(m)[..|m.prefixes|] == IdPairs(m);
        assert PrefixPairs(entries[..i + 1]) == before + IdPairs(m);
      }
      assert entries[..|entries|] == entries;
    }

    /**
     * Gets the next parsed output: `done` and the output unchanged at the end
     * of input, otherwise one step of the parser's strategy.
     */
    method Next(output: ParserOutput) returns (done: bool, result: ParserOutput)
      modifies this`position
      ensures old(Done()) ==> done && result == output && position == old(position)
      ensures !old(Done()) ==> !done
      ensures !old(Done()) ==>
        (result, position) == StepOf(strategy, registeredFlags, registeredOptions, input, old(position), output)
    {
      if Done() {
        return true, output;
      }
      var ok: Maybe<bool>;
      if strategy.Standard? {
        ok, result := ParseOption(output);
      } else {
        ok, result := ParseVariadicOption(output);
      }
      var parsed := ok == Some(true);
      if !parsed && !Done() {
        parsed, result := ParseFlag(result);
      }
      if !parsed && !Done() {
        if strategy.Standard? {
          result := ParseOrdered(result);
        } else {
          Advance(1);
        }
      }
      return false, result;
    }

    /**
     * StandardParser's `parseOption`: `None` (undefined) when the token is not
     * an option; `Some(false)` when the option is the last token and is
     * dropped; `Some(true)` when the next token's value was recorded.
     */
    method ParseOption(output: ParserOutput) returns (ok: Maybe<bool>, result: ParserOutput)
      requires !Done()
      modifies this`position
      ensures ok.None? <==> !StandardParser.Registered(registeredOptions, input[old(position)].raw)
      ensures ok.None? ==> result == output && position == old(position)
      ensures ok.Some? ==> (ok.value <==> old(position) + 1 < |input|)
      ensures ok.Some? ==>
        (result, position) == StandardParser.Step(registeredFlags, registeredOptions, input, old(position), output)
    {
      var token := input[position];
      if token.raw !in registeredOptions || registeredOptions[token.raw] == [] {
        return None, output;
      }
      var optionId := registeredOptions[token.raw];
      Advance(1);
      if Done() {
        return Some(false), output;
      }
      var value := input[position].value;
      result := AddOption(output, optionId, value);
      Advance(1);
      return Some(true), result;
    }

    /**
     * VariadicFlagParser's `parseOption`: like StandardParser's, but the value
     * runs from the next token up to the next registered prefix.
     */
    method ParseVariadicOption(output: ParserOutput) returns (ok: Maybe<bool>, result: ParserOutput)
      requires !Done()
      modifies this`position
      ensures ok.None? <==> !StandardParser.Registered(registeredOptions, input[old(position)].raw)
      ensures ok.None? ==> result == output && position == old(position)
      ensures ok.Some? ==> (ok.value <==> old(position) + 1 < |input|)
      ensures ok.Some? ==>
        (result, position) == VariadicFlagParser.Step(registeredFlags, registeredOptions, input, old(position), output)
    {
      var firstToken := input[position];
      if firstToken.raw !in registeredOptions || registeredOptions[firstToken.raw] == [] {
        return None, output;
      }
      var optionId := registeredOptions[firstToken.raw];
      Advance(1);
      if Done() {
        return Some(false), output;
      }
      var value, p := CollectVariadic(registeredFlags, registeredOptions, input, position);
      ghost var step := VariadicFlagParser.Step(registeredFlags, registeredOptions, input, position - 1, output);
      assert step == (AddOption(output, optionId, value), p);
      position := p;
      result := AddOption(output, optionId, value);
      return Some(true), result;
    }

    /** `parseFlag`: adds the id of a registered flag prefix and consumes it. */
    method ParseFlag(output: ParserOutput) returns (ok: bool, result: ParserOutput)
      requires !Done()
      modifies this`position
      ensures ok <==> StandardParser.Registered(registeredFlags, input[old(position)].raw)
      ensures ok ==> result == output.(flags := output.flags + {registeredFlags[input[old(position)].raw]})
      ensures ok ==> position == old(position) + 1
      ensures !ok ==> result == output && position == old(position)
    {
      var token := input[position];
      if token.raw !in registeredFlags || registeredFlags[token.raw] == [] {
        return false, output;
      }
      result := output.(flags := output.flags + {registeredFlags[token.raw]});
      Advance(1);
      return true, result;
    }

    /** `parseOrdered`: appends the token to the positional list and consumes it. */
    method ParseOrdered(output: ParserOutput) returns (result: ParserOutput)
      requires !Done()
      modifies this`position
      ensures result == output.(ordered := output.ordered + [input[old(position)]])
      ensures position == old(position) + 1
    {
      result := output.(ordered := output.ordered + [input[position]]);
      Advance(1);
    }

    /** `parse()`: `next()` on one output, starting empty, until done. */
    method Parse() returns (output: ParserOutput)
      modifies this`position
      ensures output == RunOf(strategy, registeredFlags, registeredOptions, input, old(position), EmptyOutput())
      ensures Done()
    {
      ghost var start := position;
      output := EmptyOutput();
      var done;
      if position < |input| {
        RunOfUnfold(strategy, registeredFlags, registeredOptions, input, position, output);
      }
      done, output := Next(output);
      while !done
        invariant done ==> Done()
        invariant !done ==> position <= |input|
        invariant RunOf(strategy, registeredFlags, registeredOptions, input, position, output)
          == RunOf(strategy, registeredFlags, registeredOptions, input, start, EmptyOutput())
        decreases if done || position > |input| then 0 else |input| - position + 1
      {
        if position < |input| {
          RunOfUnfold(strategy, registeredFlags, registeredOptions, input, position, output);
        }
        done, output := Next(output);
      }
    }
  }
}
