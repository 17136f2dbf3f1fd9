// The scanning loops of src/core/commands/args/parser/ParserOutputWrapper.ts.
// Each works on a copy `st` of the wrapper's state, which its caller stores
// back; the `markAsUsed(i)` comments mark where the source uses an index.
module WrapperLoops {
  import opened Monads
  import opened Tokens
  import opened WrapperScan
  import opened WrapperTransforms

  /** The forward loop of `retrieveMany`, from `start`. */
  method RetrieveForwardLoop(ordered: seq<Token>, s0: WrapperState, start: int, limit: Limit) returns (st: WrapperState, tokens: seq<Token>)
    requires ValidState(s0, |ordered|) && 0 <= start
    ensures ValidState(st, |ordered|)
    ensures RetrievedForward(ordered, s0, st, start, limit, tokens)
  {
    st := s0;
    tokens := [];
    var i := start;
    while i < |ordered|
      invariant start <= i && (start <= |ordered| ==> i <= |ordered|)
      invariant start > |ordered| ==> i == start
      invariant ForwardSoFar(ordered, s0, st, start, i, tokens)
      invariant !Capped(limit, |tokens|)
      decreases |ordered| - i
    {
      if i in st.usedIndices {
        ForwardSkip(ordered, s0, st, start, i, tokens);
      } else {
        ForwardTake(ordered, s0, st, start, i, tokens);
        // markAsUsed(i)
        st := st.(usedIndices := st.usedIndices + {i});
        tokens := tokens + [ordered[i]];
        if limit.AtMost? && |tokens| == limit.n {
          ForwardAtLimit(ordered, s0, st, start, i + 1, limit, tokens);
          return;
        }
      }
      i := i + 1;
    }
    ForwardAtEnd(ordered, s0, st, start, i, limit, tokens);
  }

  /** The backward loop of `retrieveMany`, from `start` down, with the final reversal. */
  method RetrieveBackwardLoop(ordered: seq<Token>, s0: WrapperState, start: int, limit: Limit) returns (st: WrapperState, tokens: seq<Token>)
    requires ValidState(s0, |ordered|) && start < |ordered|
    ensures ValidState(st, |ordered|)
    ensures RetrievedBackward(ordered, s0, st, start, limit, tokens)
  {
    st := s0;
    ghost var desc: seq<int> := [];
    var pushed: seq<Token> := [];
    var i := start;
    while i >= 0
      invariant i <= start && (-1 <= start ==> -1 <= i)
      invariant start < -1 ==> i == start
      invariant BackwardSoFar(ordered, s0, st, start, i, desc, pushed)
      invariant !Capped(limit, |desc|)
      decreases i + 1
    {
      if i in st.usedIndices {
        BackwardSkip(ordered, s0, st, start, i, desc, pushed);
      } else {
        var stop;
        st, desc, pushed, stop := RetrieveBackwardVisit(ordered, s0, start, limit, i, st, desc, pushed);
        if stop {
          return st, Reverse(pushed);
        }
      }
      i := i - 1;
    }
    BackwardAtEnd(ordered, s0, st, start, i, limit, desc, pushed);
    return st, Reverse(pushed);
  }

  /**
   * One pass of the backward loop over the free index `i`: it is used and
   * its token pushed; `stop` says the limit was reached.
   */
  method RetrieveBackwardVisit(ordered: seq<Token>, s0: WrapperState, start: int, limit: Limit, i: int, st: WrapperState, ghost desc: seq<int>, pushed: seq<Token>)
    returns (st': WrapperState, ghost desc': seq<int>, pushed': seq<Token>, stop: bool)
    requires ValidState(s0, |ordered|) && 0 <= i <= start < |ordered|
    requires BackwardSoFar(ordered, s0, st, start, i, desc, pushed) && !Capped(limit, |desc|)
    requires i !in st.usedIndices
    ensures stop ==> ValidState(st', |ordered|) && RetrievedBackward(ordered, s0, st', start, limit, Reverse(pushed'))
    ensures !stop ==> BackwardSoFar(ordered, s0, st', start, i - 1, desc', pushed') && !Capped(limit, |desc'|)
  {
    BackwardTake(ordered, s0, st, start, i, desc, pushed);
    // markAsUsed(i)
    st' := st.(usedIndices := st.usedIndices + {i});
    pushed' := pushed + [ordered[i]];
    desc' := desc + [i];
    stop := limit.AtMost? && |pushed'| == limit.n;
    if stop {
      BackwardAtLimit(ordered, s0, st', start, i - 1, limit, desc', pushed');
    }
  }

  /** The loop of `mapWhile`, from `start`. */
  method MapWhileLoop<T>(ordered: seq<Token>, fn: string -> Maybe<T>, alwaysUse: bool, limit: Limit, s0: WrapperState, start: int) returns (st: WrapperState, r: seq<T>)
    requires ValidState(s0, |ordered|) && 0 <= start
    ensures ValidState(st, |ordered|)
    ensures MappedWhile(ordered, fn, alwaysUse, s0, st, start, limit, r)
  {
    st := s0;
    r := [];
    var i := start;
    while i < |ordered|
      invariant start <= i && (start <= |ordered| ==> i <= |ordered|)
      invariant start > |ordered| ==> i == start
      invariant MapWhileSoFar(ordered, fn, s0, st, start, i, r)
      invariant !Capped(limit, |r|)
      decreases |ordered| - i
    {
      if i in st.usedIndices {
        MapWhileSkip(ordered, fn, s0, st, start, i, r);
      } else {
        var stop;
        st, r, stop := MapWhileVisit(ordered, fn, alwaysUse, limit, s0, start, i, st, r);
        if stop {
          return;
        }
      }
      i := i + 1;
    }
    MapWhileAtEnd(ordered, fn, alwaysUse, s0, st, start, i, limit, r);
  }

  /**
   * One pass of `mapWhile`'s loop over the free index `i`: `stop` says the
   * loop returns here, because `fn` failed or the limit was reached.
   */
  method MapWhileVisit<T>(ordered: seq<Token>, fn: string -> Maybe<T>, alwaysUse: bool, limit: Limit, s0: WrapperState, start: int, i: int, st: WrapperState, r: seq<T>)
    returns (st': WrapperState, r': seq<T>, stop: bool)
    requires ValidState(s0, |ordered|) && 0 <= start <= i < |ordered|
    requires MapWhileSoFar(ordered, fn, s0, st, start, i, r) && !Capped(limit, |r|)
    requires i !in st.usedIndices
    ensures stop ==> ValidState(st', |ordered|) && MappedWhile(ordered, fn, alwaysUse, s0, st', start, limit, r')
    ensures !stop ==> MapWhileSoFar(ordered, fn, s0, st', start, i + 1, r') && !Capped(limit, |r'|)
  {
    var result := fn(ordered[i].value);
    st', r' := st, r;
    if alwaysUse || result.Exists() {
      // markAsUsed(i)
      st' := st.(usedIndices := st.usedIndices + {i});
    }
    if !result.Exists() {
      MapWhileAtFailure(ordered, fn, alwaysUse, s0, st, start, i, limit, r);
      return st', r', true;
    }
    MapWhileTake(ordered, fn, s0, st, start, i, r);
    r' := r + [result.value];
    if limit.AtMost? && |r'| == limit.n {
      MapWhileAtLimit(ordered, fn, alwaysUse, s0, st', start, i + 1, limit, r');
      return st', r', true;
    }
    return st', r', false;
  }

  /** The loop of `findMap`, from `start`. */
  method FindMapLoop<T>(ordered: seq<Token>, fn: string -> Maybe<T>, alwaysUse: bool, s0: WrapperState, start: int) returns (st: WrapperState, r: Maybe<T>)
    requires ValidState(s0, |ordered|) && 0 <= start
    ensures ValidState(st, |ordered|)
    ensures FoundMap(ordered, fn, alwaysUse, s0, st, start, r)
  {
    st := s0;
    ghost var visited: seq<int> := [];
    var i := start;
    while i < |ordered|
      invariant start <= i && (start <= |ordered| ==> i <= |ordered|)
      invariant start > |ordered| ==> i == start
      invariant FindMapSoFar(ordered, fn, alwaysUse, s0, st, start, i, visited)
      decreases |ordered| - i
    {
      if i in st.usedIndices {
        FindMapSkip(ordered, fn, alwaysUse, s0, st, start, i, visited);
      } else {
        var result := fn(ordered[i].value);
        ghost var s := st;
        if alwaysUse || result.Exists() {
          // markAsUsed(i)
          st := st.(usedIndices := st.usedIndices + {i});
        }
        if result.Exists() {
          FindMapAtHit(ordered, fn, alwaysUse, s0, s, start, i, visited);
          return st, result;
        }
        FindMapMiss(ordered, fn, alwaysUse, s0, s, start, i, visited);
        visited := visited + [i];
      }
      i := i + 1;
    }
    FindMapAtEnd(ordered, fn, alwaysUse, s0, st, start, i, visited);
    return st, None;
  }

  /** The loop of `findParse`, from `start`. */
  method FindParseLoop<T, E>(ordered: seq<Token>, fn: string -> Result<T, E>, alwaysUse: bool, s0: WrapperState, start: int) returns (st: WrapperState, r: Result<T, seq<E>>)
    requires ValidState(s0, |ordered|) && 0 <= start
    ensures ValidState(st, |ordered|)
    ensures FoundParse(ordered, fn, alwaysUse, s0, st, start, r)
  {
    st := s0;
    ghost var visited: seq<int> := [];
    var errors: seq<E> := [];
    var i := start;
    while i < |ordered|
      invariant start <= i && (start <= |ordered| ==> i <= |ordered|)
      invariant start > |ordered| ==> i == start
      invariant FindParseSoFar(ordered, fn, alwaysUse, s0, st, start, i, visited, errors)
      decreases |ordered| - i
    {
      if i in st.usedIndices {
        FindParseSkip(ordered, fn, alwaysUse, s0, st, start, i, visited, errors);
      } else {
        var result := fn(ordered[i].value);
        ghost var s := st;
        if alwaysUse || result.IsOk() {
          // markAsUsed(i)
          st := st.(usedIndices := st.usedIndices + {i});
        }
        if result.IsOk() {
          FindParseAtHit(ordered, fn, alwaysUse, s0, s, start, i, visited, errors);
          return st, Ok(result.value);
        }
        FindParseMiss(ordered, fn, alwaysUse, s0, s, start, i, visited, errors);
        errors := errors + [result.error];
        visited := visited + [i];
      }
      i := i + 1;
    }
    FindParseAtEnd(ordered, fn, alwaysUse, s0, st, start, i, visited, errors);
    return st, Err(errors);
  }

  /** The loop of `filterMap`, from `start`. */
  method FilterMapLoop<T>(ordered: seq<Token>, fn: string -> Maybe<T>, alwaysUse: bool, limit: Limit, s0: WrapperState, start: int) returns (st: WrapperState, values: seq<T>)
    requires ValidState(s0, |ordered|) && 0 <= start
    ensures ValidState(st, |ordered|)
    ensures FilteredMap(ordered, fn, alwaysUse, s0, st, start, limit, values)
  {
    st := s0;
    ghost var visited: seq<int> := [];
    values := [];
    var i := start;
    while i < |ordered|
      invariant start <= i && (start <= |ordered| ==> i <= |ordered|)
      invariant start > |ordered| ==> i == start
      invariant FilterSoFar(ordered, fn, alwaysUse, s0, st, start, i, visited, values)
      invariant FilterOpen(fn, ordered, limit, visited, values)
      decreases |ordered| - i
    {
      if i in st.usedIndices {
        FilterSkip(ordered, fn, alwaysUse, s0, st, start, i, visited, values);
      } else {
        var stop;
        st, values, stop := FilterMapVisit(ordered, fn, alwaysUse, limit, s0, start, i, st, visited, values);
        if stop {
          return;
        }
        visited := visited + [i];
      }
      i := i + 1;
    }
    FilterAtEnd(ordered, fn, alwaysUse, s0, st, start, i, limit, visited, values);
  }

  /**
   * One pass of `filterMap`'s loop over the free index `i`: `stop` says the
   * count of values reached the limit.
   */
  method FilterMapVisit<T>(ordered: seq<Token>, fn: string -> Maybe<T>, alwaysUse: bool, limit: Limit, s0: WrapperState, start: int, i: int, st: WrapperState, ghost visited: seq<int>, values: seq<T>)
    returns (st': WrapperState, values': seq<T>, stop: bool)
    requires ValidState(s0, |ordered|) && 0 <= start <= i < |ordered|
    requires FilterSoFar(ordered, fn, alwaysUse, s0, st, start, i, visited, values)
    requires FilterOpen(fn, ordered, limit, visited, values)
    requires i !in st.usedIndices
    ensures stop ==> ValidState(st', |ordered|) && FilteredMap(ordered, fn, alwaysUse, s0, st', start, limit, values')
    ensures !stop ==> FilterSoFar(ordered, fn, alwaysUse, s0, st', start, i + 1, visited + [i], values')
    ensures !stop ==> FilterOpen(fn, ordered, limit, visited + [i], values')
  {
    var result := fn(ordered[i].value);
    st', values' := st, values;
    if alwaysUse || result.Exists() {
      // markAsUsed(i)
      st' := st.(usedIndices := st.usedIndices + {i});
    }
    if result.Exists() {
      values' := values + [result.value];
    }
    stop := limit.AtMost? && |values'| == limit.n;
    if stop {
      FilterStop(ordered, fn, alwaysUse, s0, st, start, i, limit, visited, values, st', values');
    } else {
      FilterGoOn(ordered, fn, alwaysUse, s0, st, start, i, limit, visited, values, st', values');
    }
  }
}
