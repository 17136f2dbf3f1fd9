// The read cursor over a parse result of
// src/core/commands/args/parser/ParserOutputWrapper.ts: positional tokens are
// consumed from the front, from the back, or by scanning, and each index is
// handed out at most once.
module ParserOutputWrapper {
  import opened Monads
  import opened Tokens
  import opened ParserOutput
  import opened WrapperScan
  import opened WrapperTransforms
  import opened WrapperLoops

  /**
   * The wrapper over one parser output. `state` is replaced wholesale by
   * `Reset`, and `Save` stores a copy, so a value-typed state has the
   * source's deep-copy semantics.
   */
  class ParserOutputWrapper {
    const parserOutput: ParserOutput
    var state: WrapperState
    var savedState: Maybe<WrapperState>

    ghost predicate Valid()
      reads this
    {
      && ValidState(state, |parserOutput.ordered|)
      && (savedState.Some? ==> ValidState(savedState.value, |parserOutput.ordered|))
    }

    /** Nothing used, the forward cursor at the first token and the backward one at the last. */
    constructor(parserOutput: ParserOutput)
      ensures this.parserOutput == parserOutput
      ensures state == WrapperState({}, 0, |parserOutput.ordered| - 1)
      ensures savedState == None
      ensures Valid()
    {
      this.parserOutput := parserOutput;
      state := WrapperState({}, 0, |parserOutput.ordered| - 1);
      savedState := None;
    }

    function Length(): nat
    {
      |parserOutput.ordered|
    }

    predicate Done()
      reads this
    {
      |state.usedIndices| >= Length()
    }

    function Position(): int
      reads this
    {
      state.position
    }

    function PositionFromEnd(): int
      reads this
    {
      state.positionFromEnd
    }

    predicate HasFlag(id: string)
    {
      id in parserOutput.flags
    }

    /** `getOption(id)`: the last value given, or nothing when the option is absent or has none. */
    function GetOption(id: string): (r: Maybe<string>)
      ensures r.Some? <==> id in parserOutput.options && parserOutput.options[id] != []
      ensures r.Some? ==> r.value == parserOutput.options[id][|parserOutput.options[id]| - 1]
    {
      if id in parserOutput.options && |parserOutput.options[id]| > 0 then
        var values := parserOutput.options[id];
        Some(values[|values| - 1])
      else None
    }

    /** `getOption(id, true)`: every value given, or nothing when there is none. */
    function GetOptionAll(id: string): (r: Maybe<seq<string>>)
      ensures r.Some? <==> id in parserOutput.options && parserOutput.options[id] != []
      ensures r.Some? ==> r.value == parserOutput.options[id] && r.value != []
      ensures GetOption(id).Some? <==> r.Some?
      ensures r.Some? ==> GetOption(id).value == r.value[|r.value| - 1]
    {
      if id in parserOutput.options && |parserOutput.options[id]| > 0 then Some(parserOutput.options[id])
      else None
    }

    /** `markAsUsed(p)`. */
    method MarkAsUsed(p: int)
      requires Valid()
      requires 0 <= p < Length()
      modifies this`state
      ensures Valid()
      ensures state == old(state).(usedIndices := old(state).usedIndices + {p})
    {
      state := state.(usedIndices := state.usedIndices + {p});
    }

    /** `save()`: remembers a copy of the current state, replacing any earlier one. */
    method Save()
      requires Valid()
      modifies this`savedState
      ensures Valid()
      ensures savedState == Some(state)
    {
      savedState := Some(state);
    }

    /** `reset()`: goes back to the saved state and forgets it; a no-op with nothing saved. */
    method Reset()
      requires Valid()
      modifies this
      ensures Valid()
      ensures old(savedState).None? ==> state == old(state) && savedState == None
      ensures old(savedState).Some? ==> state == old(savedState).value && savedState == None
    {
      if savedState.Some? {
        state := savedState.value;
        savedState := None;
      }
    }

    /**
     * `nextToken()`: moves the forward cursor past used indices onto the
     * first free one.
     */
    method NextToken() returns (token: Token)
      requires Valid() && !Done()
      modifies this`state
      ensures Valid()
      ensures state == old(state).(position := FirstUnusedFrom(old(state).usedIndices, old(state).position, Length()))
      ensures state.position < Length() && state.position !in state.usedIndices
      ensures token == parserOutput.ordered[state.position]
    {
      FreeIndexBetweenCursors(state, Length());
      ghost var j :| state.position <= j <= state.positionFromEnd && j !in state.usedIndices;
      var used := state.usedIndices;
      var p := state.position;
      while p in used
        invariant state.position <= p <= j
        invariant FirstUnusedFrom(used, p, Length()) == FirstUnusedFrom(used, state.position, Length())
        decreases j - p
      {
        // ++this.state.position
        p := p + 1;
      }
      state := state.(position := p);
      token := parserOutput.ordered[state.position];
    }

    /**
     * `nextOrdered(fromEnd)`: the value of the first free token (or, from
     * the end, the last free one), which becomes used; nothing when done.
     */
    method NextOrdered(fromEnd: bool) returns (r: Maybe<string>)
      requires Valid()
      modifies this`state
      ensures Valid()
      ensures old(Done()) ==> r == None && state == old(state)
      ensures !old(Done()) && !fromEnd ==>
        var k := FirstUnusedFrom(old(state).usedIndices, old(state).position, Length());
        && k < Length()
        && r == Some(parserOutput.ordered[k].value)
        && state == WrapperState(old(state).usedIndices + {k}, k + 1, old(state).positionFromEnd)
      ensures !old(Done()) && fromEnd ==>
        var k := LastUnusedUpTo(old(state).usedIndices, old(state).positionFromEnd);
        && 0 <= k
        && r == Some(parserOutput.ordered[k].value)
        && state == WrapperState(old(state).usedIndices + {k}, old(state).position, k - 1)
    {
      if Done() {
        return None;
      }
      if fromEnd {
        var k := LastFreeToken();
        return Some(parserOutput.ordered[k].value);
      }
      var token := NextToken();
      MarkAsUsed(state.position);
      state := state.(position := state.position + 1);
      return Some(token.value);
    }
  
    /**
     * The backward branch of `nextOrdered`: moves the backward cursor past
     * used indices, uses the free index found and steps past it.
     */
    method LastFreeToken() returns (k: int)
      requires Valid() && !Done()
      modifies this`state
      ensures Valid()
      ensures k == LastUnusedUpTo(old(state).usedIndices, old(state).positionFromEnd)
      ensures 0 <= k < Length()
      ensures state == WrapperState(old(state).usedIndices + {k}, old(state).position, k - 1)
    {
      FreeIndexBetweenCursors(state, Length());
      ghost var j :| state.position <= j <= state.positionFromEnd && j !in state.usedIndices;
      var used := state.usedIndices;
      var q := state.positionFromEnd;
      while q in used
        invariant j <= q <= state.positionFromEnd
        invariant LastUnusedUpTo(used, q) == LastUnusedUpTo(used, state.positionFromEnd)
        decreases q
      {
        // --this.state.positionFromEnd
        q := q - 1;
      }
      k := q;
      MarkAsUsed(k);
      state := state.(positionFromEnd := k - 1);
    }
  
    /**
     * `mapNext(fn, alwaysUse)`: applies `fn` to the first free token; the
     * token is used, and the cursor steps past it, only when `fn`
     * succeeds or `alwaysUse` is set. Nothing when done.
     */
    method MapNext<T>(fn: string -> Maybe<T>, alwaysUse: bool) returns (r: Maybe<Maybe<T>>)
      requires Valid()
      modifies this`state
      ensures Valid()
      ensures old(Done()) ==> r == None && state == old(state)
      ensures !old(Done()) ==>
        var k := FirstUnusedFrom(old(state).usedIndices, old(state).position, Length());
        && k < Length()
        && r == Some(fn(parserOutput.ordered[k].value))
        && state == if alwaysUse || r.value.Some? then WrapperState(old(state).usedIndices + {k}, k + 1, old(state).positionFromEnd)
                    else old(state).(position := k)
    {
      if Done() {
        return None;
      }
      var token := NextToken();
      var result := fn(token.value);
      if alwaysUse || result.Exists() {
        MarkAsUsed(state.position);
        state := state.(position := state.position + 1);
      }
      return Some(result);
    }

    /**
     * `parseNext(fn, alwaysUse)`: as `MapNext`, with success meaning an
     * `ok` result.
     */
    method ParseNext<T, E>(fn: string -> Result<T, E>, alwaysUse: bool) returns (r: Maybe<Result<T, E>>)
      requires Valid()
      modifies this`state
      ensures Valid()
      ensures old(Done()) ==> r == None && state == old(state)
      ensures !old(Done()) ==>
        var k := FirstUnusedFrom(old(state).usedIndices, old(state).position, Length());
        && k < Length()
        && r == Some(fn(parserOutput.ordered[k].value))
        && state == if alwaysUse || r.value.Ok? then WrapperState(old(state).usedIndices + {k}, k + 1, old(state).positionFromEnd)
                    else old(state).(position := k)
    {
      if Done() {
        return None;
      }
      var token := NextToken();
      var result := fn(token.value);
      if alwaysUse || result.IsOk() {
        MarkAsUsed(state.position);
        state := state.(position := state.position + 1);
      }
      return Some(result);
    }

    /**
     * `retrieveMany({ fromEnd, limit, startPosition })`: uses and returns
     * the free tokens from `startPosition` on (by default the forward
     * cursor), or with `fromEnd` those at or before it (by default the
     * backward cursor) in input order; at most `limit` of them. Neither
     * cursor moves.
     */
    method RetrieveMany(fromEnd: bool, limit: Limit, startPosition: Maybe<int>) returns (tokens: seq<Token>)
      requires Valid()
      requires startPosition.Some? && !fromEnd ==> 0 <= startPosition.value
      requires startPosition.Some? && fromEnd ==> startPosition.value < Length()
      modifies this`state
      ensures Valid()
      ensures old(Done()) ==> tokens == [] && state == old(state)
      ensures !old(Done()) && !fromEnd ==>
        var start := if startPosition.Some? then startPosition.value else old(state).position;
        RetrievedForward(parserOutput.ordered, old(state), state, start, limit, tokens)
      ensures !old(Done()) && fromEnd ==>
        var start := if startPosition.Some? then startPosition.value else old(state).positionFromEnd;
        RetrievedBackward(parserOutput.ordered, old(state), state, start, limit, tokens)
    {
      if Done() {
        return [];
      }
      if fromEnd {
        var start := if startPosition.Some? then startPosition.value else state.positionFromEnd;
        var st;
        st, tokens := RetrieveBackwardLoop(parserOutput.ordered, state, start, limit);
        state := st;
      } else {
        var start := if startPosition.Some? then startPosition.value else state.position;
        var st;
        st, tokens := RetrieveForwardLoop(parserOutput.ordered, state, start, limit);
        state := st;
      }
    }

    /**
     * `mapWhile(fn, { alwaysUse, limit, startPosition })`: maps the free
     * tokens from `startPosition` on (by default the forward cursor) until
     * `fn` fails or `limit` values are collected. Neither cursor moves.
     */
    method MapWhile<T>(fn: string -> Maybe<T>, alwaysUse: bool, limit: Limit, startPosition: Maybe<int>) returns (r: seq<T>)
      requires Valid()
      requires startPosition.Some? ==> 0 <= startPosition.value
      modifies this`state
      ensures Valid()
      ensures old(Done()) ==> r == [] && state == old(state)
      ensures !old(Done()) ==>
        var start := if startPosition.Some? then startPosition.value else old(state).position;
        MappedWhile(parserOutput.ordered, fn, alwaysUse, old(state), state, start, limit, r)
    {
      if Done() {
        return [];
      }
      var start := if startPosition.Some? then startPosition.value else state.position;
      var st;
      st, r := MapWhileLoop(parserOutput.ordered, fn, alwaysUse, limit, state, start);
      state := st;
    }

    /**
     * `findMap(fn, { alwaysUse, startPosition })`: the first free token from
     * `startPosition` on that `fn` maps, and what it maps it to; nothing
     * when there is none. Neither cursor moves.
     */
    method FindMap<T>(fn: string -> Maybe<T>, alwaysUse: bool, startPosition: Maybe<int>) returns (r: Maybe<T>)
      requires Valid()
      requires startPosition.Some? ==> 0 <= startPosition.value
      modifies this`state
      ensures Valid()
      ensures old(Done()) ==> r == None && state == old(state)
      ensures !old(Done()) ==>
        var start := if startPosition.Some? then startPosition.value else old(state).position;
        FoundMap(parserOutput.ordered, fn, alwaysUse, old(state), state, start, r)
    {
      if Done() {
        return None;
      }
      var start := if startPosition.Some? then startPosition.value else state.position;
      var st;
      st, r := FindMapLoop(parserOutput.ordered, fn, alwaysUse, state, start);
      state := st;
    }

    /**
     * `findParse(fn, { alwaysUse, startPosition })`: the value of the first
     * free token from `startPosition` on that `fn` parses, or every error
     * `fn` gave on the way. Neither cursor moves.
     */
    method FindParse<T, E>(fn: string -> Result<T, E>, alwaysUse: bool, startPosition: Maybe<int>) returns (r: Result<T, seq<E>>)
      requires Valid()
      requires startPosition.Some? ==> 0 <= startPosition.value
      modifies this`state
      ensures Valid()
      ensures old(Done()) ==> r == Err([]) && state == old(state)
      ensures !old(Done()) ==>
        var start := if startPosition.Some? then startPosition.value else old(state).position;
        FoundParse(parserOutput.ordered, fn, alwaysUse, old(state), state, start, r)
    {
      if Done() {
        return Err([]);
      }
      var start := if startPosition.Some? then startPosition.value else state.position;
      var st;
      st, r := FindParseLoop(parserOutput.ordered, fn, alwaysUse, state, start);
      state := st;
    }

    /**
     * `filterMap(fn, { alwaysUse, limit, startPosition })`: the values of
     * every free token from `startPosition` on that `fn` maps, stopping once
     * the count of values equals `limit` after a visit. Neither cursor moves.
     */
    method FilterMap<T>(fn: string -> Maybe<T>, alwaysUse: bool, limit: Limit, startPosition: Maybe<int>) returns (values: seq<T>)
      requires Valid()
      requires startPosition.Some? ==> 0 <= startPosition.value
      modifies this`state
      ensures Valid()
      ensures old(Done()) ==> values == [] && state == old(state)
      ensures !old(Done()) ==>
        var start := if startPosition.Some? then startPosition.value else old(state).position;
        FilteredMap(parserOutput.ordered, fn, alwaysUse, old(state), state, start, limit, values)
    {
      if Done() {
        return [];
      }
      var start := if startPosition.Some? then startPosition.value else state.position;
      var st;
      st, values := FilterMapLoop(parserOutput.ordered, fn, alwaysUse, limit, state, start);
      state := st;
    }

  }

}
