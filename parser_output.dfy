// The parser output record of src/core/commands/args/parser/ParserOutput.ts,
// which every parser writes to.
module ParserOutput {
  import opened Tokens

  /**
   * Ordered (positional) tokens in input order, the set of flag ids, and the
   * values given to each option id, in input order.
   */
  datatype ParserOutput = ParserOutput(ordered: seq<Token>, flags: set<string>, options: map<string, seq<string>>)

  /** `emptyOutput()`: nothing parsed yet. */
  function EmptyOutput(): (r: ParserOutput)
    ensures r.ordered == [] && r.flags == {} && r.options == map[]
  {
    ParserOutput([], {}, map[])
  }

  /**
   * Records one more value for option `id`: appended to its list, or a new
   * one-element list when the id has none yet.
   */
  function AddOption(out: ParserOutput, id: string, value: string): (r: ParserOutput)
    ensures r.ordered == out.ordered && r.flags == out.flags
    ensures id in r.options && r.options[id] == (if id in out.options then out.options[id] else []) + [value]
    ensures forall k :: k != id ==> (k in r.options <==> k in out.options)
    ensures forall k :: k != id && k in out.options ==> r.options[k] == out.options[k]
  {
    var values := if id in out.options then out.options[id] + [value] else [value];
    out.(options := out.options[id := values])
  }

  /**
   * `later` extends `earlier`: its ordered tokens start with the earlier ones,
   * it keeps every flag, and every option keeps its earlier values as a prefix.
   */
  ghost predicate Extends(earlier: ParserOutput, later: ParserOutput)
  {
    && earlier.ordered <= later.ordered
    && earlier.flags <= later.flags
    && (forall k :: k in earlier.options ==> k in later.options && earlier.options[k] <= later.options[k])
  }

  /** Extension is transitive, so a whole parse keeps what each step wrote. */
  lemma ExtendsTrans(a: ParserOutput, b: ParserOutput, c: ParserOutput)
    requires Extends(a, b) && Extends(b, c)
    ensures Extends(a, c)
  {
    forall k | k in a.options
      ensures k in c.options && a.options[k] <= c.options[k]
    {
      assert a.options[k] <= b.options[k] <= c.options[k];
    }
  }

  /** Adding an option value loses nothing already recorded. */
  lemma AddOptionExtends(out: ParserOutput, id: string, value: string)
    ensures Extends(out, AddOption(out, id, value))
  {
  }
}
