// What the scanning combinators of
// src/core/commands/args/parser/ParserOutputWrapper.ts (`mapWhile`,
// `findMap`, `findParse`, `filterMap`) return and which indices they use,
// stated over the candidates a forward scan visits, with the step lemmas
// their loops rest on.
module WrapperTransforms {
  import opened Monads
  import opened Tokens
  import opened WrapperScan

  /** The value of the token at index `i`; empty outside the token range. */
  function ValueAt(ordered: seq<Token>, i: int): string
  {
    if 0 <= i < |ordered| then ordered[i].value else []
  }

  /** How many candidates, from the first, `fn` maps before it first fails. */
  function Leading<T>(fn: string -> Maybe<T>, ordered: seq<Token>, idx: seq<int>): (m: nat)
    ensures m <= |idx|
    ensures forall k :: 0 <= k < m ==> fn(ValueAt(ordered, idx[k])).Some?
    ensures m < |idx| ==> fn(ValueAt(ordered, idx[m])).None?
  {
    if idx == [] || fn(ValueAt(ordered, idx[0])).None? then 0
    else
      var m' := Leading(fn, ordered, idx[1..]);
      assert forall k :: 1 <= k < m' + 1 ==> idx[k] == idx[1..][k - 1];
      1 + m'
  }

  /** The values `fn` gives the candidates, when it maps every one of them. */
  function Mapped<T>(fn: string -> Maybe<T>, ordered: seq<Token>, idx: seq<int>): (r: seq<T>)
    requires forall k :: 0 <= k < |idx| ==> fn(ValueAt(ordered, idx[k])).Some?
    ensures |r| == |idx|
    ensures forall k :: 0 <= k < |idx| ==> fn(ValueAt(ordered, idx[k])) == Some(r[k])
  {
    if idx == [] then []
    else Mapped(fn, ordered, idx[..|idx| - 1]) + [fn(ValueAt(ordered, idx[|idx| - 1])).value]
  }

  /** The position of the first candidate `fn` maps, or the number of candidates. */
  function FirstSome<T>(fn: string -> Maybe<T>, ordered: seq<Token>, idx: seq<int>): (f: nat)
    ensures f <= |idx|
    ensures forall k :: 0 <= k < f ==> fn(ValueAt(ordered, idx[k])).None?
    ensures f < |idx| ==> fn(ValueAt(ordered, idx[f])).Some?
  {
    if idx == [] || fn(ValueAt(ordered, idx[0])).Some? then 0
    else
      var f' := FirstSome(fn, ordered, idx[1..]);
      assert forall k :: 1 <= k < f' + 1 ==> idx[k] == idx[1..][k - 1];
      1 + f'
  }

  /** The position of the first candidate `fn` parses, or the number of candidates. */
  function FirstOk<T, E>(fn: string -> Result<T, E>, ordered: seq<Token>, idx: seq<int>): (f: nat)
    ensures f <= |idx|
    ensures forall k :: 0 <= k < f ==> fn(ValueAt(ordered, idx[k])).Err?
    ensures f < |idx| ==> fn(ValueAt(ordered, idx[f])).Ok?
  {
    if idx == [] || fn(ValueAt(ordered, idx[0])).Ok? then 0
    else
      var f' := FirstOk(fn, ordered, idx[1..]);
      assert forall k :: 1 <= k < f' + 1 ==> idx[k] == idx[1..][k - 1];
      1 + f'
  }

  /** The errors `fn` gives the candidates, when it fails on every one of them. */
  function Errors<T, E>(fn: string -> Result<T, E>, ordered: seq<Token>, idx: seq<int>): (r: seq<E>)
    requires forall k :: 0 <= k < |idx| ==> fn(ValueAt(ordered, idx[k])).Err?
    ensures |r| == |idx|
    ensures forall k :: 0 <= k < |idx| ==> fn(ValueAt(ordered, idx[k])) == Err(r[k])
  {
    if idx == [] then []
    else Errors(fn, ordered, idx[..|idx| - 1]) + [fn(ValueAt(ordered, idx[|idx| - 1])).error]
  }

  /** The candidates `fn` maps, in scan order. */
  function Hits<T>(fn: string -> Maybe<T>, ordered: seq<Token>, idx: seq<int>): (h: seq<int>)
    ensures |h| <= |idx|
    ensures forall k :: 0 <= k < |h| ==> fn(ValueAt(ordered, h[k])).Some?
  {
    if idx == [] then []
    else
      var last := idx[|idx| - 1];
      Hits(fn, ordered, idx[..|idx| - 1]) + (if fn(ValueAt(ordered, last)).Some? then [last] else [])
  }

  /** The hits are exactly the candidates `fn` maps. */
  lemma {:induction false} HitsMembers<T>(fn: string -> Maybe<T>, ordered: seq<Token>, idx: seq<int>)
    ensures forall x :: x in Hits(fn, ordered, idx) <==> x in idx && fn(ValueAt(ordered, x)).Some?
    decreases |idx|
  {
    if idx != [] {
      var init := idx[..|idx| - 1];
      HitsMembers(fn, ordered, init);
      assert idx == init + [idx[|idx| - 1]];
    }
  }

  /** The hits of two runs of candidates are those of each, in order. */
  lemma {:induction false} HitsAppend<T>(fn: string -> Maybe<T>, ordered: seq<Token>, a: seq<int>, b: seq<int>)
    ensures Hits(fn, ordered, a + b) == Hits(fn, ordered, a) + Hits(fn, ordered, b)
    decreases |b|
  {
    if b == [] {
      assert a + b == a;
    } else {
      var b' := b[..|b| - 1];
      assert (a + b)[..|a + b| - 1] == a + b';
      HitsAppend(fn, ordered, a, b');
    }
  }

  /**
   * With a limit `n` of at least 1, the number of candidates a `filterMap`
   * visits: it stops right after the candidate that gives it its `n`-th value.
   */
  function FilterEnd<T>(fn: string -> Maybe<T>, ordered: seq<Token>, idx: seq<int>, n: nat): (v: nat)
    requires 1 <= n <= |Hits(fn, ordered, idx)|
    ensures 1 <= v <= |idx|
    ensures |Hits(fn, ordered, idx[..(v)])| == n
    ensures fn(ValueAt(ordered, idx[v - 1])).Some?
    decreases |idx|
  {
    var p := idx[..|idx| - 1];
    if |Hits(fn, ordered, p)| >= n then
      var v := FilterEnd(fn, ordered, p, n);
      assert p[..v] == idx[..v];
      v
    else
      assert idx[..|idx|] == idx;
      |idx|
  }

  /** The number of candidates a `filterMap` with this limit visits. */
  function FilterVisits<T>(fn: string -> Maybe<T>, ordered: seq<Token>, idx: seq<int>, limit: Limit): (v: nat)
    ensures v <= |idx|
  {
    match limit
    case Unlimited => |idx|
    case AtMost(n) =>
      if n == 0 then (if idx != [] && fn(ValueAt(ordered, idx[0])).None? then 1 else |idx|)
      else if |Hits(fn, ordered, idx)| < n then |idx|
      else FilterEnd(fn, ordered, idx, n)
  }

  /** A run of candidates that reached its `n`-th hit at its last element fixes where `filterMap` stops. */
  lemma {:induction false} FilterEndAt<T>(fn: string -> Maybe<T>, ordered: seq<Token>, a: seq<int>, rest: seq<int>, n: nat)
    requires a != [] && 1 <= n == |Hits(fn, ordered, a)|
    requires |Hits(fn, ordered, a[..|a| - 1])| < n
    ensures |Hits(fn, ordered, a + rest)| >= n
    ensures FilterEnd(fn, ordered, a + rest, n) == |a|
    decreases |rest|
  {
    HitsAppend(fn, ordered, a, rest);
    if rest == [] {
      assert a + rest == a;
    } else {
      var rest' := rest[..|rest| - 1];
      assert (a + rest)[..|a + rest| - 1] == a + rest';
      FilterEndAt(fn, ordered, a, rest', n);
    }
  }

  /**
   * `mapWhile` from `start`: the values of the leading candidates `fn` maps,
   * at most `limit` of them; those candidates become used, and so does the
   * candidate that failed when `alwaysUse` is set.
   */
  ghost predicate MappedWhile<T>(ordered: seq<Token>, fn: string -> Maybe<T>, alwaysUse: bool, s0: WrapperState, s1: WrapperState, start: int, limit: Limit, r: seq<T>)
  {
    var idx := Unused(s0.usedIndices, start, |ordered|);
    var m := Leading(fn, ordered, idx);
    var k := if Capped(limit, m) then limit.n else m;
    var failed := !Capped(limit, m) && m < |idx|;
    && r == Mapped(fn, ordered, idx[..k])
    && s1 == s0.(usedIndices := s0.usedIndices + SetOf(idx[..if failed && alwaysUse then k + 1 else k]))
  }

  /**
   * `findMap` from `start`: what `fn` gives the first candidate it maps, or
   * nothing; that candidate becomes used, and with `alwaysUse` so does every
   * candidate visited before it.
   */
  ghost predicate FoundMap<T>(ordered: seq<Token>, fn: string -> Maybe<T>, alwaysUse: bool, s0: WrapperState, s1: WrapperState, start: int, r: Maybe<T>)
  {
    var idx := Unused(s0.usedIndices, start, |ordered|);
    var f := FirstSome(fn, ordered, idx);
    var visited := idx[..if f < |idx| then f + 1 else f];
    && r == (if f < |idx| then fn(ValueAt(ordered, idx[f])) else None)
    && s1 == s0.(usedIndices := s0.usedIndices + if alwaysUse then SetOf(visited) else if f < |idx| then {idx[f]} else {})
  }

  /**
   * `findParse` from `start`: the value `fn` gives the first candidate it
   * parses, or every error it gave, in scan order; the indices used are those
   * of `FoundMap`.
   */
  ghost predicate FoundParse<T, E>(ordered: seq<Token>, fn: string -> Result<T, E>, alwaysUse: bool, s0: WrapperState, s1: WrapperState, start: int, r: Result<T, seq<E>>)
  {
    var idx := Unused(s0.usedIndices, start, |ordered|);
    var f := FirstOk(fn, ordered, idx);
    var visited := idx[..if f < |idx| then f + 1 else f];
    && r == (if f < |idx| then Ok(fn(ValueAt(ordered, idx[f])).value) else Err(Errors(fn, ordered, idx)))
    && s1 == s0.(usedIndices := s0.usedIndices + if alwaysUse then SetOf(visited) else if f < |idx| then {idx[f]} else {})
  }

  /**
   * `filterMap` from `start`: the values of every visited candidate `fn`
   * maps, in scan order, where the scan stops as `FilterVisits` says; the
   * candidates mapped become used, and with `alwaysUse` every one visited.
   */
  ghost predicate FilteredMap<T>(ordered: seq<Token>, fn: string -> Maybe<T>, alwaysUse: bool, s0: WrapperState, s1: WrapperState, start: int, limit: Limit, r: seq<T>)
  {
    var idx := Unused(s0.usedIndices, start, |ordered|);
    var visited := idx[..FilterVisits(fn, ordered, idx, limit)];
    var hits := Hits(fn, ordered, visited);
    && r == Mapped(fn, ordered, hits)
    && s1 == s0.(usedIndices := s0.usedIndices + SetOf(if alwaysUse then visited else hits))
  }

  /** On a wrapper that is done no candidate is left, whatever the start. */
  lemma DoneLeavesNoCandidates(s: WrapperState, n: int, start: int)
    requires ValidState(s, n) && |s.usedIndices| >= n && 0 <= start
    ensures Unused(s.usedIndices, start, n) == []
  {
    DoneIffAllUsed(s, n);
    AllUsedNoCandidates(s.usedIndices, start, n);
  }

  /** A range whose indices are all used has no candidates. */
  lemma {:induction false} AllUsedNoCandidates(used: set<int>, lo: int, hi: int)
    requires forall j :: lo <= j < hi ==> j in used
    ensures Unused(used, lo, hi) == []
    decreases hi - lo
  {
    if lo < hi {
      AllUsedNoCandidates(used, lo + 1, hi);
    }
  }

  /** A scan that reached the free index `i` has visited a prefix of the candidates, and `i` comes next. */
  lemma CandidatesThrough(used: set<int>, start: int, i: int, n: int)
    requires start <= i < n && i !in used
    ensures var idx := Unused(used, start, n); var v := Unused(used, start, i);
      && |v| < |idx| && idx[..|v|] == v && idx[|v|] == i && idx[..|v| + 1] == v + [i]
  {
    var v, w := Unused(used, start, i), Unused(used, i + 1, n);
    UnusedSplit(used, start, i, n);
    UnusedSplit(used, i, i + 1, n);
    assert Unused(used, i, i + 1) == [i];
    SplitAround(v, i, w);
  }

  /** The parts of a sequence split around one element. */
  lemma SplitAround(v: seq<int>, x: int, w: seq<int>)
    ensures var s := v + ([x] + w);
      && |v| < |s| && s[..|v|] == v && s[|v|] == x && s[..|v| + 1] == v + [x]
  {
    var s := v + ([x] + w);
    assert s[..|v|] == v;
    assert s[..|v| + 1] == v + [x];
  }

  lemma LeadingIs<T>(fn: string -> Maybe<T>, ordered: seq<Token>, idx: seq<int>, m: nat)
    requires m <= |idx|
    requires forall k :: 0 <= k < m ==> fn(ValueAt(ordered, idx[k])).Some?
    requires m < |idx| ==> fn(ValueAt(ordered, idx[m])).None?
    ensures Leading(fn, ordered, idx) == m
  {
  }

  lemma FirstSomeIs<T>(fn: string -> Maybe<T>, ordered: seq<Token>, idx: seq<int>, f: nat)
    requires f <= |idx|
    requires forall k :: 0 <= k < f ==> fn(ValueAt(ordered, idx[k])).None?
    requires f < |idx| ==> fn(ValueAt(ordered, idx[f])).Some?
    ensures FirstSome(fn, ordered, idx) == f
  {
  }

  lemma FirstOkIs<T, E>(fn: string -> Result<T, E>, ordered: seq<Token>, idx: seq<int>, f: nat)
    requires f <= |idx|
    requires forall k :: 0 <= k < f ==> fn(ValueAt(ordered, idx[k])).Err?
    requires f < |idx| ==> fn(ValueAt(ordered, idx[f])).Ok?
    ensures FirstOk(fn, ordered, idx) == f
  {
  }

  // ---- mapWhile's loop ----

  /** Before visiting `i`: every candidate of `[start, i)` was mapped and used. */
  ghost predicate MapWhileSoFar<T>(ordered: seq<Token>, fn: string -> Maybe<T>, s0: WrapperState, s: WrapperState, start: int, i: int, mapped: seq<T>)
  {
    var visited := Unused(s0.usedIndices, start, i);
    && (forall k :: 0 <= k < |visited| ==> fn(ValueAt(ordered, visited[k])).Some?)
    && mapped == Mapped(fn, ordered, visited)
    && s == s0.(usedIndices := s0.usedIndices + SetOf(visited))
  }

  lemma MapWhileSkip<T>(ordered: seq<Token>, fn: string -> Maybe<T>, s0: WrapperState, s: WrapperState, start: int, i: int, mapped: seq<T>)
    requires start <= i && MapWhileSoFar(ordered, fn, s0, s, start, i, mapped)
    requires i in s.usedIndices
    ensures MapWhileSoFar(ordered, fn, s0, s, start, i + 1, mapped)
  {
    var visited := Unused(s0.usedIndices, start, i);
    UnusedSnoc(s0.usedIndices, start, i);
    UnusedBounds(s0.usedIndices, start, i);
    NotInSetOf(visited, i);
    assert visited + [] == visited;
  }

  lemma MapWhileTake<T>(ordered: seq<Token>, fn: string -> Maybe<T>, s0: WrapperState, s: WrapperState, start: int, i: int, mapped: seq<T>)
    requires 0 <= start <= i < |ordered| && MapWhileSoFar(ordered, fn, s0, s, start, i, mapped)
    requires i !in s.usedIndices && fn(ordered[i].value).Some?
    ensures MapWhileSoFar(ordered, fn, s0, s.(usedIndices := s.usedIndices + {i}), start, i + 1, mapped + [fn(ordered[i].value).value])
  {
    var visited := Unused(s0.usedIndices, start, i);
    UnusedSnoc(s0.usedIndices, start, i);
    UnusedBounds(s0.usedIndices, start, i);
    NotInSetOf(visited, i);
    assert (visited + [i])[..|visited|] == visited;
  }

  /** `mapWhile` stopped by a candidate `fn` fails on has done what `MappedWhile` says. */
  lemma MapWhileAtFailure<T>(ordered: seq<Token>, fn: string -> Maybe<T>, alwaysUse: bool, s0: WrapperState, s: WrapperState, start: int, i: int, limit: Limit, mapped: seq<T>)
    requires ValidState(s0, |ordered|)
    requires 0 <= start <= i < |ordered| && MapWhileSoFar(ordered, fn, s0, s, start, i, mapped)
    requires !Capped(limit, |mapped|)
    requires i !in s.usedIndices && fn(ordered[i].value).None?
    ensures var s1 := if alwaysUse then s.(usedIndices := s.usedIndices + {i}) else s;
      MappedWhile(ordered, fn, alwaysUse, s0, s1, start, limit, mapped) && ValidState(s1, |ordered|)
  {
    MapWhileFailure(ordered, fn, alwaysUse, s0, s, start, i, limit, mapped);
    UnusedBounds(s0.usedIndices, start, i);
    UseMoreKeepsValid(s0, |ordered|, Unused(s0.usedIndices, start, i));
    UseOneKeepsValid(s, |ordered|, i);
  }

  lemma MapWhileFailure<T>(ordered: seq<Token>, fn: string -> Maybe<T>, alwaysUse: bool, s0: WrapperState, s: WrapperState, start: int, i: int, limit: Limit, mapped: seq<T>)
    requires 0 <= start <= i < |ordered| && MapWhileSoFar(ordered, fn, s0, s, start, i, mapped)
    requires !Capped(limit, |mapped|)
    requires i !in s.usedIndices && fn(ordered[i].value).None?
    ensures MappedWhile(ordered, fn, alwaysUse, s0, if alwaysUse then s.(usedIndices := s.usedIndices + {i}) else s, start, limit, mapped)
  {
    var idx := Unused(s0.usedIndices, start, |ordered|);
    var visited := Unused(s0.usedIndices, start, i);
    UnusedBounds(s0.usedIndices, start, i);
    NotInSetOf(visited, i);
    CandidatesThrough(s0.usedIndices, start, i, |ordered|);
    LeadingIs(fn, ordered, idx, |visited|);
  }

  /** `mapWhile` that mapped `limit` candidates has done what `MappedWhile` says. */
  lemma MapWhileAtLimit<T>(ordered: seq<Token>, fn: string -> Maybe<T>, alwaysUse: bool, s0: WrapperState, s: WrapperState, start: int, i: int, limit: Limit, mapped: seq<T>)
    requires ValidState(s0, |ordered|)
    requires 0 <= start <= i <= |ordered| && MapWhileSoFar(ordered, fn, s0, s, start, i, mapped)
    requires limit.AtMost? && |mapped| == limit.n >= 1
    ensures MappedWhile(ordered, fn, alwaysUse, s0, s, start, limit, mapped) && ValidState(s, |ordered|)
  {
    var idx := Unused(s0.usedIndices, start, |ordered|);
    var visited := Unused(s0.usedIndices, start, i);
    UnusedSplit(s0.usedIndices, start, i, |ordered|);
    assert idx[..|visited|] == visited;
    UnusedBounds(s0.usedIndices, start, i);
    UseMoreKeepsValid(s0, |ordered|, visited);
  }

  /** `mapWhile` that ran off the end has done what `MappedWhile` says. */
  lemma MapWhileAtEnd<T>(ordered: seq<Token>, fn: string -> Maybe<T>, alwaysUse: bool, s0: WrapperState, s: WrapperState, start: int, i: int, limit: Limit, mapped: seq<T>)
    requires ValidState(s0, |ordered|)
    requires 0 <= start <= i && |ordered| <= i && (start <= |ordered| ==> i == |ordered|) && (|ordered| < start ==> i == start)
    requires MapWhileSoFar(ordered, fn, s0, s, start, i, mapped)
    requires !Capped(limit, |mapped|)
    ensures MappedWhile(ordered, fn, alwaysUse, s0, s, start, limit, mapped) && ValidState(s, |ordered|)
  {
    var idx := Unused(s0.usedIndices, start, |ordered|);
    var visited := Unused(s0.usedIndices, start, i);
    assert idx == visited;
    assert idx[..|idx|] == idx;
    UnusedBounds(s0.usedIndices, start, i);
    UseMoreKeepsValid(s0, |ordered|, visited);
  }

  // ---- findMap's and findParse's loops ----

  /**
   * Before visiting `i`: `fn` failed on every candidate of `[start, i)`, and
   * those were used only under `alwaysUse`.
   */
  ghost predicate FindMapSoFar<T>(ordered: seq<Token>, fn: string -> Maybe<T>, alwaysUse: bool, s0: WrapperState, s: WrapperState, start: int, i: int, visited: seq<int>)
  {
    && visited == Unused(s0.usedIndices, start, i)
    && (forall k :: 0 <= k < |visited| ==> fn(ValueAt(ordered, visited[k])).None?)
    && s == s0.(usedIndices := s0.usedIndices + if alwaysUse then SetOf(visited) else {})
  }

  lemma FindMapSkip<T>(ordered: seq<Token>, fn: string -> Maybe<T>, alwaysUse: bool, s0: WrapperState, s: WrapperState, start: int, i: int, visited: seq<int>)
    requires start <= i && FindMapSoFar(ordered, fn, alwaysUse, s0, s, start, i, visited)
    requires i in s.usedIndices
    ensures FindMapSoFar(ordered, fn, alwaysUse, s0, s, start, i + 1, visited)
  {
    UnusedSnoc(s0.usedIndices, start, i);
    UnusedBounds(s0.usedIndices, start, i);
    NotInSetOf(visited, i);
  }

  lemma FindMapMiss<T>(ordered: seq<Token>, fn: string -> Maybe<T>, alwaysUse: bool, s0: WrapperState, s: WrapperState, start: int, i: int, visited: seq<int>)
    requires 0 <= start <= i < |ordered| && FindMapSoFar(ordered, fn, alwaysUse, s0, s, start, i, visited)
    requires i !in s.usedIndices && fn(ordered[i].value).None?
    ensures FindMapSoFar(ordered, fn, alwaysUse, s0, if alwaysUse then s.(usedIndices := s.usedIndices + {i}) else s, start, i + 1, visited + [i])
  {
    UnusedSnoc(s0.usedIndices, start, i);
    assert (visited + [i])[..|visited|] == visited;
  }

  /** `findMap` that found a candidate `fn` maps has done what `FoundMap` says. */
  lemma FindMapAtHit<T>(ordered: seq<Token>, fn: string -> Maybe<T>, alwaysUse: bool, s0: WrapperState, s: WrapperState, start: int, i: int, visited: seq<int>)
    requires ValidState(s0, |ordered|)
    requires 0 <= start <= i < |ordered| && FindMapSoFar(ordered, fn, alwaysUse, s0, s, start, i, visited)
    requires i !in s.usedIndices && fn(ordered[i].value).Some?
    ensures var s1 := s.(usedIndices := s.usedIndices + {i});
      FoundMap(ordered, fn, alwaysUse, s0, s1, start, fn(ordered[i].value)) && ValidState(s1, |ordered|)
  {
    FindMapHit(ordered, fn, alwaysUse, s0, s, start, i, visited);
    UnusedBounds(s0.usedIndices, start, i);
    UseMoreKeepsValid(s0, |ordered|, if alwaysUse then visited else []);
    UseOneKeepsValid(s, |ordered|, i);
  }

  lemma FindMapHit<T>(ordered: seq<Token>, fn: string -> Maybe<T>, alwaysUse: bool, s0: WrapperState, s: WrapperState, start: int, i: int, visited: seq<int>)
    requires 0 <= start <= i < |ordered| && FindMapSoFar(ordered, fn, alwaysUse, s0, s, start, i, visited)
    requires i !in s.usedIndices && fn(ordered[i].value).Some?
    ensures FoundMap(ordered, fn, alwaysUse, s0, s.(usedIndices := s.usedIndices + {i}), start, fn(ordered[i].value))
    ensures s == s0.(usedIndices := s0.usedIndices + SetOf(if alwaysUse then visited else []))
  {
    var idx := Unused(s0.usedIndices, start, |ordered|);
    CandidatesThrough(s0.usedIndices, start, i, |ordered|);
    FirstSomeIs(fn, ordered, idx, |visited|);
    assert (visited + [i])[..|visited|] == visited;
  }

  /** `findMap` that ran off the end has done what `FoundMap` says. */
  lemma FindMapAtEnd<T>(ordered: seq<Token>, fn: string -> Maybe<T>, alwaysUse: bool, s0: WrapperState, s: WrapperState, start: int, i: int, visited: seq<int>)
    requires ValidState(s0, |ordered|)
    requires 0 <= start <= i && |ordered| <= i && (start <= |ordered| ==> i == |ordered|) && (|ordered| < start ==> i == start)
    requires FindMapSoFar(ordered, fn, alwaysUse, s0, s, start, i, visited)
    ensures FoundMap(ordered, fn, alwaysUse, s0, s, start, None) && ValidState(s, |ordered|)
  {
    var idx := Unused(s0.usedIndices, start, |ordered|);
    assert idx == visited;
    assert idx[..|idx|] == idx;
    UnusedBounds(s0.usedIndices, start, i);
    UseMoreKeepsValid(s0, |ordered|, visited);
  }

  /**
   * Before visiting `i`: `fn` failed on every candidate of `[start, i)`,
   * giving `errors`, and those were used only under `alwaysUse`.
   */
  ghost predicate FindParseSoFar<T, E>(ordered: seq<Token>, fn: string -> Result<T, E>, alwaysUse: bool, s0: WrapperState, s: WrapperState, start: int, i: int, visited: seq<int>, errors: seq<E>)
  {
    && visited == Unused(s0.usedIndices, start, i)
    && (forall k :: 0 <= k < |visited| ==> fn(ValueAt(ordered, visited[k])).Err?)
    && errors == Errors(fn, ordered, visited)
    && s == s0.(usedIndices := s0.usedIndices + if alwaysUse then SetOf(visited) else {})
  }

  lemma FindParseSkip<T, E>(ordered: seq<Token>, fn: string -> Result<T, E>, alwaysUse: bool, s0: WrapperState, s: WrapperState, start: int, i: int, visited: seq<int>, errors: seq<E>)
    requires start <= i && FindParseSoFar(ordered, fn, alwaysUse, s0, s, start, i, visited, errors)
    requires i in s.usedIndices
    ensures FindParseSoFar(ordered, fn, alwaysUse, s0, s, start, i + 1, visited, errors)
  {
    UnusedSnoc(s0.usedIndices, start, i);
    UnusedBounds(s0.usedIndices, start, i);
    NotInSetOf(visited, i);
  }

  lemma FindParseMiss<T, E>(ordered: seq<Token>, fn: string -> Result<T, E>, alwaysUse: bool, s0: WrapperState, s: WrapperState, start: int, i: int, visited: seq<int>, errors: seq<E>)
    requires 0 <= start <= i < |ordered| && FindParseSoFar(ordered, fn, alwaysUse, s0, s, start, i, visited, errors)
    requires i !in s.usedIndices && fn(ordered[i].value).Err?
    ensures FindParseSoFar(ordered, fn, alwaysUse, s0, if alwaysUse then s.(usedIndices := s.usedIndices + {i}) else s, start, i + 1, visited + [i], errors + [fn(ordered[i].value).error])
  {
    UnusedSnoc(s0.usedIndices, start, i);
    assert (visited + [i])[..|visited|] == visited;
  }

  /** `findParse` that found a candidate `fn` parses has done what `FoundParse` says. */
  lemma FindParseAtHit<T, E>(ordered: seq<Token>, fn: string -> Result<T, E>, alwaysUse: bool, s0: WrapperState, s: WrapperState, start: int, i: int, visited: seq<int>, errors: seq<E>)
    requires ValidState(s0, |ordered|)
    requires 0 <= start <= i < |ordered| && FindParseSoFar(ordered, fn, alwaysUse, s0, s, start, i, visited, errors)
    requires i !in s.usedIndices && fn(ordered[i].value).Ok?
    ensures var s1 := s.(usedIndices := s.usedIndices + {i});
      FoundParse(ordered, fn, alwaysUse, s0, s1, start, Ok(fn(ordered[i].value).value)) && ValidState(s1, |ordered|)
  {
    FindParseHit(ordered, fn, alwaysUse, s0, s, start, i, visited, errors);
    UnusedBounds(s0.usedIndices, start, i);
    UseMoreKeepsValid(s0, |ordered|, if alwaysUse then visited else []);
    UseOneKeepsValid(s, |ordered|, i);
  }

  lemma FindParseHit<T, E>(ordered: seq<Token>, fn: string -> Result<T, E>, alwaysUse: bool, s0: WrapperState, s: WrapperState, start: int, i: int, visited: seq<int>, errors: seq<E>)
    requires 0 <= start <= i < |ordered| && FindParseSoFar(ordered, fn, alwaysUse, s0, s, start, i, visited, errors)
    requires i !in s.usedIndices && fn(ordered[i].value).Ok?
    ensures FoundParse(ordered, fn, alwaysUse, s0, s.(usedIndices := s.usedIndices + {i}), start, Ok(fn(ordered[i].value).value))
    ensures s == s0.(usedIndices := s0.usedIndices + SetOf(if alwaysUse then visited else []))
  {
    var idx := Unused(s0.usedIndices, start, |ordered|);
    CandidatesThrough(s0.usedIndices, start, i, |ordered|);
    FirstOkIs(fn, ordered, idx, |visited|);
    assert (visited + [i])[..|visited|] == visited;
  }

  /** `findParse` that ran off the end has done what `FoundParse` says. */
  lemma FindParseAtEnd<T, E>(ordered: seq<Token>, fn: string -> Result<T, E>, alwaysUse: bool, s0: WrapperState, s: WrapperState, start: int, i: int, visited: seq<int>, errors: seq<E>)
    requires ValidState(s0, |ordered|)
    requires 0 <= start <= i && |ordered| <= i && (start <= |ordered| ==> i == |ordered|) && (|ordered| < start ==> i == start)
    requires FindParseSoFar(ordered, fn, alwaysUse, s0, s, start, i, visited, errors)
    ensures FoundParse(ordered, fn, alwaysUse, s0, s, start, Err(errors)) && ValidState(s, |ordered|)
  {
    var idx := Unused(s0.usedIndices, start, |ordered|);
    assert idx == visited;
    assert idx[..|idx|] == idx;
    UnusedBounds(s0.usedIndices, start, i);
    UseMoreKeepsValid(s0, |ordered|, visited);
  }

  // ---- filterMap's loop ----

  /**
   * Before visiting `i`: the values of the candidates of `[start, i)` that
   * `fn` maps were kept; those, or with `alwaysUse` all of `[start, i)`'s
   * candidates, were used.
   */
  ghost predicate FilterSoFar<T>(ordered: seq<Token>, fn: string -> Maybe<T>, alwaysUse: bool, s0: WrapperState, s: WrapperState, start: int, i: int, visited: seq<int>, values: seq<T>)
  {
    && visited == Unused(s0.usedIndices, start, i)
    && values == Mapped(fn, ordered, Hits(fn, ordered, visited))
    && s == s0.(usedIndices := s0.usedIndices + SetOf(if alwaysUse then visited else Hits(fn, ordered, visited)))
  }

  /**
   * The loop has not met its limit: the count of values never equalled it
   * after a visit. A zero limit is met only by a first visit that fails.
   */
  predicate FilterOpen<T>(fn: string -> Maybe<T>, ordered: seq<Token>, limit: Limit, visited: seq<int>, values: seq<T>)
  {
    limit.AtMost? ==>
      if limit.n == 0 then visited == [] || fn(ValueAt(ordered, visited[0])).Some?
      else |values| < limit.n
  }

  /** The limit check after visiting `i`: either the loop stops where `FilterVisits` says, or it stays open. */
  lemma FilterCheck<T>(fn: string -> Maybe<T>, ordered: seq<Token>, limit: Limit, visited: seq<int>, values: seq<T>, i: int)
    requires FilterOpen(fn, ordered, limit, visited, values)
    requires values == Mapped(fn, ordered, Hits(fn, ordered, visited))
    ensures var result := fn(ValueAt(ordered, i));
      var values' := if result.Some? then values + [result.value] else values;
      && (visited + [i])[..|visited|] == visited
      && (limit.AtMost? && |values'| == limit.n ==>
           && (limit.n == 0 ==> visited == [] && result.None?)
           && (1 <= limit.n ==> |Hits(fn, ordered, visited)| < limit.n))
      && (!(limit.AtMost? && |values'| == limit.n) ==> FilterOpen(fn, ordered, limit, visited + [i], values'))
  {
    HitsMembers(fn, ordered, visited);
  }

  /** The indices of the hits among `visited` lie in `visited`. */
  lemma HitsWithin<T>(fn: string -> Maybe<T>, ordered: seq<Token>, visited: seq<int>, x: int)
    requires forall k :: 0 <= k < |visited| ==> visited[k] != x
    ensures x !in SetOf(Hits(fn, ordered, visited))
  {
    SetOfMembers(Hits(fn, ordered, visited));
    HitsMembers(fn, ordered, visited);
  }

  lemma FilterSkip<T>(ordered: seq<Token>, fn: string -> Maybe<T>, alwaysUse: bool, s0: WrapperState, s: WrapperState, start: int, i: int, visited: seq<int>, values: seq<T>)
    requires start <= i && FilterSoFar(ordered, fn, alwaysUse, s0, s, start, i, visited, values)
    requires i in s.usedIndices
    ensures FilterSoFar(ordered, fn, alwaysUse, s0, s, start, i + 1, visited, values)
  {
    UnusedSnoc(s0.usedIndices, start, i);
    UnusedBounds(s0.usedIndices, start, i);
    NotInSetOf(visited, i);
    HitsWithin(fn, ordered, visited, i);
  }

  /** Visiting a free candidate keeps its value if `fn` maps it, and uses it if so or under `alwaysUse`. */
  lemma FilterVisit<T>(ordered: seq<Token>, fn: string -> Maybe<T>, alwaysUse: bool, s0: WrapperState, s: WrapperState, start: int, i: int, visited: seq<int>, values: seq<T>)
    requires 0 <= start <= i < |ordered| && FilterSoFar(ordered, fn, alwaysUse, s0, s, start, i, visited, values)
    requires i !in s.usedIndices
    ensures var result := fn(ordered[i].value);
      FilterSoFar(ordered, fn, alwaysUse, s0,
        if alwaysUse || result.Some? then s.(usedIndices := s.usedIndices + {i}) else s,
        start, i + 1, visited + [i], if result.Some? then values + [result.value] else values)
  {
    UnusedSnoc(s0.usedIndices, start, i);
    assert (visited + [i])[..|visited|] == visited;
    var h := Hits(fn, ordered, visited);
    if fn(ordered[i].value).Some? {
      assert Hits(fn, ordered, visited + [i]) == h + [i];
      assert (h + [i])[..|h|] == h;
    } else {
      assert Hits(fn, ordered, visited + [i]) == h;
    }
  }

  /** A loop state that has visited exactly what `FilterVisits` allows has done what `FilteredMap` says. */
  lemma FilterFinish<T>(ordered: seq<Token>, fn: string -> Maybe<T>, alwaysUse: bool, s0: WrapperState, s: WrapperState, start: int, i: int, limit: Limit, visited: seq<int>, values: seq<T>)
    requires FilterSoFar(ordered, fn, alwaysUse, s0, s, start, i, visited, values)
    requires var idx := Unused(s0.usedIndices, start, |ordered|);
      idx[..FilterVisits(fn, ordered, idx, limit)] == visited
    ensures FilteredMap(ordered, fn, alwaysUse, s0, s, start, limit, values)
  {
  }

  /** What a `filterMap` uses are candidates, so the wrapper stays valid. */
  lemma FilterKeepsValid<T>(ordered: seq<Token>, fn: string -> Maybe<T>, alwaysUse: bool, s0: WrapperState, s: WrapperState, start: int, i: int, visited: seq<int>, values: seq<T>)
    requires ValidState(s0, |ordered|) && 0 <= start && (i <= |ordered| || i == start)
    requires FilterSoFar(ordered, fn, alwaysUse, s0, s, start, i, visited, values)
    ensures ValidState(s, |ordered|)
  {
    var h := Hits(fn, ordered, visited);
    HitsMembers(fn, ordered, visited);
    UnusedBounds(s0.usedIndices, start, i);
    forall k | 0 <= k < |h|
      ensures 0 <= h[k] < |ordered|
    {
      assert h[k] in visited;
    }
    UnusedBounds(s0.usedIndices, start, i);
    UseMoreKeepsValid(s0, |ordered|, visited);
    UseMoreKeepsValid(s0, |ordered|, h);
  }

  /** With a limit, the candidates visited up to and including the last of `visited'` are where `filterMap` stops. */
  lemma FilterStopsAt<T>(fn: string -> Maybe<T>, ordered: seq<Token>, idx: seq<int>, limit: Limit, visited: seq<int>, visited': seq<int>)
    requires limit.AtMost? && visited' != [] && visited' <= idx && visited'[..|visited'| - 1] == visited
    requires limit.n == 0 ==> visited == [] && fn(ValueAt(ordered, visited'[0])).None?
    requires 1 <= limit.n ==> |Hits(fn, ordered, visited)| < limit.n == |Hits(fn, ordered, visited')|
    ensures FilterVisits(fn, ordered, idx, limit) == |visited'|
  {
    if 1 <= limit.n {
      var rest := idx[|visited'|..];
      assert idx == visited' + rest;
      FilterEndAt(fn, ordered, visited', rest, limit.n);
    }
  }

  /**
   * `filterMap` that met its limit with the visit of `i - 1`, the last of
   * `visited`, has done what `FilteredMap` says.
   */
  lemma FilterAtLimit<T>(ordered: seq<Token>, fn: string -> Maybe<T>, alwaysUse: bool, s0: WrapperState, s: WrapperState, start: int, i: int, limit: Limit, visited: seq<int>, values: seq<T>)
    requires ValidState(s0, |ordered|)
    requires 0 <= start <= i < |ordered| && FilterSoFar(ordered, fn, alwaysUse, s0, s, start, i + 1, visited + [i], values)
    requires limit.AtMost? && |values| == limit.n
    requires limit.n == 0 ==> visited == [] && fn(ValueAt(ordered, i)).None?
    requires 1 <= limit.n ==> |Hits(fn, ordered, visited)| < limit.n
    ensures FilteredMap(ordered, fn, alwaysUse, s0, s, start, limit, values) && ValidState(s, |ordered|)
  {
    var idx := Unused(s0.usedIndices, start, |ordered|);
    var visited' := visited + [i];
    assert idx[..FilterVisits(fn, ordered, idx, limit)] == visited' by {
      UnusedSplit(s0.usedIndices, start, i + 1, |ordered|);
      assert visited' <= idx;
      assert visited'[..|visited|] == visited;
      FilterStopsAt(fn, ordered, idx, limit, visited, visited');
    }
    FilterFinish(ordered, fn, alwaysUse, s0, s, start, i + 1, limit, visited', values);
    FilterKeepsValid(ordered, fn, alwaysUse, s0, s, start, i + 1, visited', values);
  }


  /** The state and values after visiting the free candidate `i`. */
  ghost predicate FilterVisited<T>(ordered: seq<Token>, fn: string -> Maybe<T>, alwaysUse: bool, s: WrapperState, i: int, values: seq<T>, s': WrapperState, values': seq<T>)
    requires 0 <= i < |ordered|
  {
    var result := fn(ordered[i].value);
    && s' == (if alwaysUse || result.Some? then s.(usedIndices := s.usedIndices + {i}) else s)
    && values' == (if result.Some? then values + [result.value] else values)
  }

  /** A visit that meets the limit ends `filterMap` as `FilteredMap` says. */
  lemma FilterStop<T>(ordered: seq<Token>, fn: string -> Maybe<T>, alwaysUse: bool, s0: WrapperState, s: WrapperState, start: int, i: int, limit: Limit, visited: seq<int>, values: seq<T>, s': WrapperState, values': seq<T>)
    requires ValidState(s0, |ordered|)
    requires 0 <= start <= i < |ordered| && FilterSoFar(ordered, fn, alwaysUse, s0, s, start, i, visited, values)
    requires FilterOpen(fn, ordered, limit, visited, values)
    requires i !in s.usedIndices
    requires FilterVisited(ordered, fn, alwaysUse, s, i, values, s', values')
    requires limit.AtMost? && |values'| == limit.n
    ensures FilteredMap(ordered, fn, alwaysUse, s0, s', start, limit, values') && ValidState(s', |ordered|)
  {
    FilterVisit(ordered, fn, alwaysUse, s0, s, start, i, visited, values);
    FilterCheck(fn, ordered, limit, visited, values, i);
    FilterAtLimit(ordered, fn, alwaysUse, s0, s', start, i, limit, visited, values');
  }

  /** A visit that does not meet the limit keeps the loop's invariant. */
  lemma FilterGoOn<T>(ordered: seq<Token>, fn: string -> Maybe<T>, alwaysUse: bool, s0: WrapperState, s: WrapperState, start: int, i: int, limit: Limit, visited: seq<int>, values: seq<T>, s': WrapperState, values': seq<T>)
    requires 0 <= start <= i < |ordered| && FilterSoFar(ordered, fn, alwaysUse, s0, s, start, i, visited, values)
    requires FilterOpen(fn, ordered, limit, visited, values)
    requires i !in s.usedIndices
    requires FilterVisited(ordered, fn, alwaysUse, s, i, values, s', values')
    requires !(limit.AtMost? && |values'| == limit.n)
    ensures FilterSoFar(ordered, fn, alwaysUse, s0, s', start, i + 1, visited + [i], values')
    ensures FilterOpen(fn, ordered, limit, visited + [i], values')
  {
    FilterVisit(ordered, fn, alwaysUse, s0, s, start, i, visited, values);
    FilterCheck(fn, ordered, limit, visited, values, i);
  }

  /** `filterMap` that ran off the end has done what `FilteredMap` says. */
  lemma FilterAtEnd<T>(ordered: seq<Token>, fn: string -> Maybe<T>, alwaysUse: bool, s0: WrapperState, s: WrapperState, start: int, i: int, limit: Limit, visited: seq<int>, values: seq<T>)
    requires ValidState(s0, |ordered|)
    requires 0 <= start <= i && |ordered| <= i && (start <= |ordered| ==> i == |ordered|) && (|ordered| < start ==> i == start)
    requires FilterSoFar(ordered, fn, alwaysUse, s0, s, start, i, visited, values)
    requires FilterOpen(fn, ordered, limit, visited, values)
    ensures FilteredMap(ordered, fn, alwaysUse, s0, s, start, limit, values) && ValidState(s, |ordered|)
  {
    var idx := Unused(s0.usedIndices, start, |ordered|);
    assert idx == visited;
    assert idx[..|idx|] == idx;
    FilterFinish(ordered, fn, alwaysUse, s0, s, start, i, limit, visited, values);
    FilterKeepsValid(ordered, fn, alwaysUse, s0, s, start, i, visited, values);
  }
}
