// The index bookkeeping behind
// src/core/commands/args/parser/ParserOutputWrapper.ts: the wrapper's state,
// the candidate indices a scan visits, and what each kind of scan leaves
// behind.
module WrapperScan {
  import opened Tokens

  /** The indices already consumed and the two cursors. */
  datatype WrapperState = WrapperState(usedIndices: set<int>, position: int, positionFromEnd: int)

  /**
   * The `limit` option. The source compares the running count with `===`
   * after a push, so `AtMost(0)` (like `Infinity`) never stops a scan that
   * pushes first.
   */
  datatype Limit = Unlimited | AtMost(n: nat)

  /** A limit that a list of `count` elements has reached. */
  predicate Capped(limit: Limit, count: nat)
  {
    limit.AtMost? && 1 <= limit.n <= count
  }

  /** The first `limit` elements of `xs`, or all of them. */
  function LimitPrefix<T>(xs: seq<T>, limit: Limit): seq<T>
  {
    if Capped(limit, |xs|) then xs[..limit.n] else xs
  }

  /** The last `limit` elements of `xs`, or all of them. */
  function LimitSuffix<T>(xs: seq<T>, limit: Limit): seq<T>
  {
    if Capped(limit, |xs|) then xs[|xs| - limit.n..] else xs
  }

  /** The elements of `xs` in the opposite order. */
  function Reverse<T>(xs: seq<T>): (r: seq<T>)
    ensures |r| == |xs|
  {
    if xs == [] then [] else Reverse(xs[1..]) + [xs[0]]
  }

  lemma {:induction false} ReverseSnoc<T>(xs: seq<T>, x: T)
    ensures Reverse(xs + [x]) == [x] + Reverse(xs)
  {
    if xs != [] {
      assert (xs + [x])[1..] == xs[1..] + [x];
      ReverseSnoc(xs[1..], x);
    }
  }

  lemma {:induction false} ReverseAppend<T>(a: seq<T>, b: seq<T>)
    ensures Reverse(a + b) == Reverse(b) + Reverse(a)
    decreases |a|
  {
    if a == [] {
      assert a + b == b;
    } else {
      assert (a + b)[1..] == a[1..] + b;
      ReverseAppend(a[1..], b);
    }
  }

  lemma {:induction false} ReverseMembers<T>(xs: seq<T>)
    ensures forall x :: x in Reverse(xs) <==> x in xs
  {
    if xs != [] {
      ReverseMembers(xs[1..]);
      assert xs == [xs[0]] + xs[1..];
    }
  }

  /** The indices listed in `idx`. */
  function SetOf(idx: seq<int>): set<int>
  {
    if idx == [] then {} else SetOf(idx[..|idx| - 1]) + {idx[|idx| - 1]}
  }

  lemma {:induction false} SetOfMembers(idx: seq<int>)
    ensures forall j :: j in SetOf(idx) <==> j in idx
  {
    if idx != [] {
      SetOfMembers(idx[..|idx| - 1]);
      assert idx == idx[..|idx| - 1] + [idx[|idx| - 1]];
    }
  }

  lemma SetOfCons(i: int, idx: seq<int>)
    ensures SetOf([i] + idx) == SetOf(idx) + {i}
  {
    SetOfMembers([i] + idx);
    SetOfMembers(idx);
    forall j
      ensures j in SetOf([i] + idx) <==> j in SetOf(idx) + {i}
    {
      assert j in [i] + idx <==> j == i || j in idx;
    }
  }

  /** The tokens at the given indices (an index out of range gives an empty token). */
  function TokensAt(ordered: seq<Token>, idx: seq<int>): (r: seq<Token>)
    ensures |r| == |idx|
  {
    if idx == [] then []
    else
      var j := idx[|idx| - 1];
      TokensAt(ordered, idx[..|idx| - 1]) + [if 0 <= j < |ordered| then ordered[j] else Token([], [], [])]
  }

  lemma {:induction false} TokensAtIndex(ordered: seq<Token>, idx: seq<int>)
    ensures forall k :: 0 <= k < |idx| && 0 <= idx[k] < |ordered| ==> TokensAt(ordered, idx)[k] == ordered[idx[k]]
  {
    if idx != [] {
      TokensAtIndex(ordered, idx[..|idx| - 1]);
    }
  }

  lemma {:induction false} TokensAtAppend(ordered: seq<Token>, a: seq<int>, b: seq<int>)
    ensures TokensAt(ordered, a + b) == TokensAt(ordered, a) + TokensAt(ordered, b)
    decreases |b|
  {
    if b == [] {
      assert a + b == a;
    } else {
      var b' := b[..|b| - 1];
      assert (a + b)[..|a + b| - 1] == a + b';
      TokensAtAppend(ordered, a, b');
    }
  }

  /** Reversing the indices reverses the tokens. */
  lemma {:induction false} TokensAtReverse(ordered: seq<Token>, idx: seq<int>)
    ensures Reverse(TokensAt(ordered, idx)) == TokensAt(ordered, Reverse(idx))
    decreases |idx|
  {
    if idx != [] {
      var idx' := idx[..|idx| - 1];
      var x := idx[|idx| - 1];
      TokensAtReverse(ordered, idx');
      assert idx == idx' + [x];
      ReverseSnoc(idx', x);
      ReverseSnoc(TokensAt(ordered, idx'), TokensAt(ordered, [x])[0]);
      TokensAtAppend(ordered, [x], Reverse(idx'));
    }
  }

  /**
   * The indices in `[lo, hi)` not in `used`, in increasing order: the
   * candidates a forward scan visits.
   */
  function Unused(used: set<int>, lo: int, hi: int): (r: seq<int>)
    decreases hi - lo
  {
    if lo >= hi then [] else (if lo in used then [] else [lo]) + Unused(used, lo + 1, hi)
  }

  /** The candidates lie in `[lo, hi)` and are free. */
  lemma {:induction false} UnusedBounds(used: set<int>, lo: int, hi: int)
    ensures forall k :: 0 <= k < |Unused(used, lo, hi)| ==> lo <= Unused(used, lo, hi)[k] < hi && Unused(used, lo, hi)[k] !in used
    decreases hi - lo
  {
    if lo < hi {
      UnusedBounds(used, lo + 1, hi);
    }
  }

  predicate Increasing(xs: seq<int>)
  {
    forall k, l :: 0 <= k < l < |xs| ==> xs[k] < xs[l]
  }

  /** The candidates come in increasing order. */
  lemma {:induction false} UnusedSorted(used: set<int>, lo: int, hi: int)
    ensures Increasing(Unused(used, lo, hi))
    decreases hi - lo
  {
    if lo < hi {
      UnusedSorted(used, lo + 1, hi);
      UnusedBounds(used, lo + 1, hi);
      var r' := Unused(used, lo + 1, hi);
      if lo !in used {
        var r := Unused(used, lo, hi);
        assert r == [lo] + r';
        forall k, l | 0 <= k < l < |r|
          ensures r[k] < r[l]
        {
          assert r[l] == r'[l - 1];
          if k > 0 {
            assert r[k] == r'[k - 1];
            assert r'[k - 1] < r'[l - 1];
          }
        }
      }
    }
  }

  /** Every free index of the range is a candidate. */
  lemma {:induction false} UnusedComplete(used: set<int>, lo: int, hi: int)
    ensures forall j :: lo <= j < hi && j !in used ==> j in Unused(used, lo, hi)
    decreases hi - lo
  {
    if lo < hi {
      UnusedComplete(used, lo + 1, hi);
    }
  }

  /** The candidates of a range are those of its two halves, in order. */
  lemma {:induction false} UnusedSplit(used: set<int>, lo: int, mid: int, hi: int)
    requires lo <= mid <= hi
    ensures Unused(used, lo, hi) == Unused(used, lo, mid) + Unused(used, mid, hi)
    decreases mid - lo
  {
    if lo < mid {
      UnusedSplit(used, lo + 1, mid, hi);
      assert Unused(used, lo, hi) == (if lo in used then [] else [lo]) + Unused(used, lo + 1, hi);
      assert Unused(used, lo, mid) == (if lo in used then [] else [lo]) + Unused(used, lo + 1, mid);
    }
  }

  /** Adding index `i` after scanning `[lo, i)` extends the candidates by `i` if it is free. */
  lemma UnusedSnoc(used: set<int>, lo: int, i: int)
    requires lo <= i
    ensures Unused(used, lo, i + 1) == Unused(used, lo, i) + (if i in used then [] else [i])
  {
    UnusedSplit(used, lo, i, i + 1);
  }

  /** A forward scan that has taken `limit` candidates of `[lo, i)` stops with them. */
  lemma ForwardStopsAtLimit(used: set<int>, lo: int, i: int, n: int, limit: Limit)
    requires lo <= i <= n
    requires limit.AtMost? && |Unused(used, lo, i)| == limit.n >= 1
    ensures LimitPrefix(Unused(used, lo, n), limit) == Unused(used, lo, i)
  {
    UnusedSplit(used, lo, i, n);
  }

  /** A forward scan that ran off the end without reaching its limit took every candidate. */
  lemma ForwardRunsToEnd(used: set<int>, lo: int, i: int, n: int, limit: Limit)
    requires lo <= i && n <= i && (lo <= n ==> i == n) && (n < lo ==> i == lo)
    requires !Capped(limit, |Unused(used, lo, i)|)
    ensures LimitPrefix(Unused(used, lo, n), limit) == Unused(used, lo, i)
  {
  }

  /** A backward scan that has taken `limit` candidates of `[i, hi)` stops with them. */
  lemma BackwardStopsAtLimit(used: set<int>, i: int, hi: int, limit: Limit)
    requires 0 <= i <= hi
    requires limit.AtMost? && |Unused(used, i, hi)| == limit.n >= 1
    ensures LimitSuffix(Unused(used, 0, hi), limit) == Unused(used, i, hi)
  {
    UnusedSplit(used, 0, i, hi);
  }

  /** A backward scan that ran past index 0 without reaching its limit took every candidate. */
  lemma BackwardRunsToEnd(used: set<int>, i: int, hi: int, limit: Limit)
    requires i + 1 <= hi && (0 <= hi ==> i == -1) && (hi < 0 ==> i + 1 == hi)
    requires !Capped(limit, |Unused(used, i + 1, hi)|)
    ensures LimitSuffix(Unused(used, 0, hi), limit) == Unused(used, i + 1, hi)
  {
  }

  /** Using more token indices keeps the wrapper's invariant. */
  lemma UseMoreKeepsValid(s: WrapperState, n: int, idx: seq<int>)
    requires ValidState(s, n)
    requires forall k :: 0 <= k < |idx| ==> 0 <= idx[k] < n
    ensures ValidState(s.(usedIndices := s.usedIndices + SetOf(idx)), n)
  {
    SetOfMembers(idx);
  }

  /** Using one more token index keeps the wrapper's invariant. */
  lemma UseOneKeepsValid(s: WrapperState, n: int, i: int)
    requires ValidState(s, n) && 0 <= i < n
    ensures ValidState(s.(usedIndices := s.usedIndices + {i}), n)
  {
  }

  lemma NotInSetOf(idx: seq<int>, x: int)
    requires forall k :: 0 <= k < |idx| ==> idx[k] != x
    ensures x !in SetOf(idx)
  {
    SetOfMembers(idx);
  }

  /**
   * The indices in `[lo, hi)` not in `used`, in decreasing order: the
   * candidates a backward scan visits.
   */
  function UnusedDown(used: set<int>, lo: int, hi: int): (r: seq<int>)
    ensures forall k :: 0 <= k < |r| ==> lo <= r[k] < hi && r[k] !in used
    decreases hi - lo
  {
    if lo >= hi then [] else UnusedDown(used, lo + 1, hi) + (if lo in used then [] else [lo])
  }

  /** A backward scan visits the forward candidates in the opposite order. */
  lemma {:induction false} UnusedDownReversed(used: set<int>, lo: int, hi: int)
    ensures Reverse(UnusedDown(used, lo, hi)) == Unused(used, lo, hi)
    decreases hi - lo
  {
    if lo < hi {
      UnusedDownReversed(used, lo + 1, hi);
      var m := if lo in used then [] else [lo];
      ReverseAppend(UnusedDown(used, lo + 1, hi), m);
      assert Reverse(m) == m;
    }
  }

  /**
   * `nextToken()`'s loop: the first index from `p` on that is not used, or
   * `n` when the scan runs off the end.
   */
  function FirstUnusedFrom(used: set<int>, p: int, n: int): (r: int)
    ensures p <= r
    ensures p <= n ==> r <= n
    ensures forall i :: p <= i < r ==> i in used
    ensures r < n ==> r !in used
    decreases n - p
  {
    if p >= n || p !in used then p else FirstUnusedFrom(used, p + 1, n)
  }

  /**
   * `nextOrdered(true)`'s loop: the last index at or below `q` that is not
   * used, or `-1`.
   */
  function LastUnusedUpTo(used: set<int>, q: int): (r: int)
    requires forall i :: i in used ==> 0 <= i
    ensures -1 <= q ==> -1 <= r
    ensures r <= q
    ensures forall i :: r < i <= q ==> i in used
    ensures r !in used
    decreases q + 1
  {
    if q < 0 || q !in used then q else LastUnusedUpTo(used, q - 1)
  }

  /**
   * What the wrapper keeps true: used indices are token indices, every
   * index before `position` and after `positionFromEnd` is used, and both
   * cursors stay within one step of the token range.
   */
  predicate ValidState(s: WrapperState, n: int)
  {
    && (forall i :: i in s.usedIndices ==> 0 <= i < n)
    && 0 <= s.position <= n
    && -1 <= s.positionFromEnd < n
    && (forall i :: 0 <= i < s.position ==> i in s.usedIndices)
    && (forall i :: s.positionFromEnd < i < n ==> i in s.usedIndices)
  }

  lemma {:induction false} CardAtLeast(s: set<int>, n: nat)
    requires forall i :: 0 <= i < n ==> i in s
    ensures |s| >= n
  {
    if n > 0 {
      var s' := s - {n - 1};
      CardAtLeast(s', n - 1);
      assert s == s' + {n - 1};
    }
  }

  /**
   * While fewer than `n` indices are used, a free index lies between the
   * two cursors: this is why `done` is the right guard for every scan.
   */
  lemma FreeIndexBetweenCursors(s: WrapperState, n: int)
    requires ValidState(s, n) && |s.usedIndices| < n
    ensures exists j :: s.position <= j <= s.positionFromEnd && j !in s.usedIndices
  {
    if forall i :: 0 <= i < n ==> i in s.usedIndices {
      CardAtLeast(s.usedIndices, n);
    }
    var j :| 0 <= j < n && j !in s.usedIndices;
    assert s.position <= j <= s.positionFromEnd;
  }

  /**
   * `done` holds exactly when every token index is used.
   */
  lemma DoneIffAllUsed(s: WrapperState, n: int)
    requires ValidState(s, n)
    ensures |s.usedIndices| >= n <==> forall i :: 0 <= i < n ==> i in s.usedIndices
  {
    if forall i :: 0 <= i < n ==> i in s.usedIndices {
      CardAtLeast(s.usedIndices, n);
    } else {
      var j :| 0 <= j < n && j !in s.usedIndices;
      CardMissing(s.usedIndices, n, j);
    }
  }

  lemma {:induction false} CardAtMost(s: set<int>, n: nat)
    requires forall i :: i in s ==> 0 <= i < n
    ensures |s| <= n
  {
    if n > 0 {
      CardAtMost(s - {n - 1}, n - 1);
    } else {
      assert forall x :: x !in s;
      assert s == {};
    }
  }

  lemma {:induction false} CardMissing(s: set<int>, n: nat, j: int)
    requires forall i :: i in s ==> 0 <= i < n
    requires 0 <= j < n && j !in s
    ensures |s| < n
  {
    if j == n - 1 {
      CardAtMost(s, n - 1);
    } else {
      CardMissing(s - {n - 1}, n - 1, j);
    }
  }

  /**
   * The forward cursor's next token is the lowest free index overall,
   * because every index before the cursor is used.
   */
  lemma NextIsLowestFree(s: WrapperState, n: int)
    requires ValidState(s, n) && |s.usedIndices| < n
    ensures var k := FirstUnusedFrom(s.usedIndices, s.position, n);
      && 0 <= k < n
      && k !in s.usedIndices
      && forall i :: 0 <= i < k ==> i in s.usedIndices
  {
    FreeIndexBetweenCursors(s, n);
  }

  /**
   * The backward cursor's next token is the highest free index overall,
   * because every index after the cursor is used.
   */
  lemma LastIsHighestFree(s: WrapperState, n: int)
    requires ValidState(s, n) && |s.usedIndices| < n
    ensures var k := LastUnusedUpTo(s.usedIndices, s.positionFromEnd);
      && 0 <= k < n
      && k !in s.usedIndices
      && forall i :: k < i < n ==> i in s.usedIndices
  {
    FreeIndexBetweenCursors(s, n);
  }

  /**
   * A forward `retrieveMany` takes free indices of `[lo, hi)` in increasing
   * order, at most `limit` of them, and every free index it leaves is
   * later than all it took; with no limit reached it takes them all.
   */
  lemma ForwardTakesFirstFree(used: set<int>, lo: int, hi: int, limit: Limit)
    ensures var idx := LimitPrefix(Unused(used, lo, hi), limit);
      && (forall k :: 0 <= k < |idx| ==> lo <= idx[k] < hi && idx[k] !in used)
      && Increasing(idx)
      && (limit.AtMost? && 1 <= limit.n ==> |idx| <= limit.n)
      && (forall j :: lo <= j < hi && j !in used && j !in idx ==> Capped(limit, |idx|) && idx[|idx| - 1] < j)
  {
    var u := Unused(used, lo, hi);
    UnusedBounds(used, lo, hi);
    UnusedComplete(used, lo, hi);
    UnusedSorted(used, lo, hi);
    if Capped(limit, |u|) {
      SliceIncreasing(u, 0, limit.n);
      PrefixLeavesLater(u, limit.n, used, lo, hi);
    }
  }

  /**
   * A backward `retrieveMany` returns free indices of `[lo, hi)` in
   * increasing order, at most `limit` of them, and every free index it
   * leaves is earlier than all it took.
   */
  lemma BackwardTakesLastFree(used: set<int>, lo: int, hi: int, limit: Limit)
    ensures var idx := LimitSuffix(Unused(used, lo, hi), limit);
      && (forall k :: 0 <= k < |idx| ==> lo <= idx[k] < hi && idx[k] !in used)
      && Increasing(idx)
      && (limit.AtMost? && 1 <= limit.n ==> |idx| <= limit.n)
      && (forall j :: lo <= j < hi && j !in used && j !in idx ==> Capped(limit, |idx|) && j < idx[0])
  {
    var u := Unused(used, lo, hi);
    UnusedBounds(used, lo, hi);
    UnusedComplete(used, lo, hi);
    UnusedSorted(used, lo, hi);
    if Capped(limit, |u|) {
      SliceIncreasing(u, |u| - limit.n, |u|);
      SuffixLeavesEarlier(u, |u| - limit.n, used, lo, hi);
    }
  }

  /** Of an increasing sequence holding every free index, a prefix leaves out only later ones. */
  lemma PrefixLeavesLater(u: seq<int>, n: int, used: set<int>, lo: int, hi: int)
    requires Increasing(u) && 1 <= n <= |u|
    requires forall j :: lo <= j < hi && j !in used ==> j in u
    ensures forall j :: lo <= j < hi && j !in used && j !in u[..n] ==> u[..n][n - 1] < j
  {
    forall j | lo <= j < hi && j !in used && j !in u[..n]
      ensures u[n - 1] < j
    {
      var p :| 0 <= p < |u| && u[p] == j;
      SliceMembers(u, 0, n, p);
      assert u[n - 1] < u[p];
    }
  }

  /** Of an increasing sequence holding every free index, a suffix leaves out only earlier ones. */
  lemma SuffixLeavesEarlier(u: seq<int>, d: int, used: set<int>, lo: int, hi: int)
    requires Increasing(u) && 0 <= d < |u|
    requires forall j :: lo <= j < hi && j !in used ==> j in u
    ensures forall j :: lo <= j < hi && j !in used && j !in u[d..] ==> j < u[d..][0]
  {
    forall j | lo <= j < hi && j !in used && j !in u[d..]
      ensures j < u[d]
    {
      var p :| 0 <= p < |u| && u[p] == j;
      SliceMembers(u, d, |u|, p);
      assert u[p] < u[d];
    }
  }

  /** An element at a position inside a slice is in that slice. */
  lemma SliceMembers<T>(xs: seq<T>, a: int, b: int, p: int)
    requires 0 <= a <= b <= |xs| && 0 <= p < |xs|
    ensures a <= p < b ==> xs[p] in xs[a..b]
  {
    if a <= p < b {
      assert xs[a..b][p - a] == xs[p];
    }
  }

  /** A slice of an increasing sequence is increasing. */
  lemma SliceIncreasing(xs: seq<int>, a: int, b: int)
    requires Increasing(xs) && 0 <= a <= b <= |xs|
    ensures Increasing(xs[a..b])
  {
    forall k, l | 0 <= k < l < b - a
      ensures xs[a..b][k] < xs[a..b][l]
    {
      assert xs[a..b][k] == xs[a + k] && xs[a..b][l] == xs[a + l];
    }
  }

  /**
   * A forward `retrieveMany` from `start`: the first `limit` free indices
   * from `start` on are returned as tokens and become used.
   */
  ghost predicate RetrievedForward(ordered: seq<Token>, s0: WrapperState, s1: WrapperState, start: int, limit: Limit, tokens: seq<Token>)
  {
    var idx := LimitPrefix(Unused(s0.usedIndices, start, |ordered|), limit);
    && tokens == TokensAt(ordered, idx)
    && s1 == s0.(usedIndices := s0.usedIndices + SetOf(idx))
  }

  /**
   * A backward `retrieveMany` from `start`: the last `limit` free indices
   * at or before `start` are returned as tokens, in input order, and become
   * used.
   */
  ghost predicate RetrievedBackward(ordered: seq<Token>, s0: WrapperState, s1: WrapperState, start: int, limit: Limit, tokens: seq<Token>)
  {
    var idx := LimitSuffix(Unused(s0.usedIndices, 0, start + 1), limit);
    && tokens == TokensAt(ordered, idx)
    && s1 == s0.(usedIndices := s0.usedIndices + SetOf(idx))
  }

  /**
   * The forward loop of `retrieveMany` before visiting index `i`: it has
   * taken exactly the free indices of `[start, i)`, returned their tokens
   * and used them.
   */
  ghost predicate ForwardSoFar(ordered: seq<Token>, s0: WrapperState, s: WrapperState, start: int, i: int, tokens: seq<Token>)
  {
    var taken := Unused(s0.usedIndices, start, i);
    && tokens == TokensAt(ordered, taken)
    && s == s0.(usedIndices := s0.usedIndices + SetOf(taken))
  }

  /** Visiting a used index changes nothing. */
  lemma ForwardSkip(ordered: seq<Token>, s0: WrapperState, s: WrapperState, start: int, i: int, tokens: seq<Token>)
    requires start <= i && ForwardSoFar(ordered, s0, s, start, i, tokens)
    requires i in s.usedIndices
    ensures ForwardSoFar(ordered, s0, s, start, i + 1, tokens)
  {
    var taken := Unused(s0.usedIndices, start, i);
    UnusedSnoc(s0.usedIndices, start, i);
    UnusedBounds(s0.usedIndices, start, i);
    NotInSetOf(taken, i);
    assert taken + [] == taken;
    assert Unused(s0.usedIndices, start, i + 1) == taken;
  }

  /** Visiting a free index takes it. */
  lemma ForwardTake(ordered: seq<Token>, s0: WrapperState, s: WrapperState, start: int, i: int, tokens: seq<Token>)
    requires 0 <= start <= i < |ordered| && ForwardSoFar(ordered, s0, s, start, i, tokens)
    requires i !in s.usedIndices
    ensures ForwardSoFar(ordered, s0, s.(usedIndices := s.usedIndices + {i}), start, i + 1, tokens + [ordered[i]])
  {
    var taken := Unused(s0.usedIndices, start, i);
    UnusedSnoc(s0.usedIndices, start, i);
    assert (taken + [i])[..|taken|] == taken;
  }

  /**
   * The backward loop of `retrieveMany` before visiting index `i`: it has
   * taken exactly the free indices of `(i, start]`, from the highest down,
   * pushed their tokens and used them.
   */
  ghost predicate BackwardSoFar(ordered: seq<Token>, s0: WrapperState, s: WrapperState, start: int, i: int, desc: seq<int>, pushed: seq<Token>)
  {
    && desc == UnusedDown(s0.usedIndices, i + 1, start + 1)
    && pushed == TokensAt(ordered, desc)
    && s == s0.(usedIndices := s0.usedIndices + SetOf(desc))
  }

  /** Visiting a used index changes nothing. */
  lemma BackwardSkip(ordered: seq<Token>, s0: WrapperState, s: WrapperState, start: int, i: int, desc: seq<int>, pushed: seq<Token>)
    requires i <= start && BackwardSoFar(ordered, s0, s, start, i, desc, pushed)
    requires i in s.usedIndices
    ensures BackwardSoFar(ordered, s0, s, start, i - 1, desc, pushed)
  {
    NotInSetOf(desc, i);
  }

  /** Visiting a free index takes it. */
  lemma BackwardTake(ordered: seq<Token>, s0: WrapperState, s: WrapperState, start: int, i: int, desc: seq<int>, pushed: seq<Token>)
    requires 0 <= i <= start < |ordered| && BackwardSoFar(ordered, s0, s, start, i, desc, pushed)
    requires i !in s.usedIndices
    ensures BackwardSoFar(ordered, s0, s.(usedIndices := s.usedIndices + {i}), start, i - 1, desc + [i], pushed + [ordered[i]])
  {
    assert (desc + [i])[..|desc|] == desc;
    assert UnusedDown(s0.usedIndices, i, start + 1) == desc + [i];
    assert TokensAt(ordered, desc + [i]) == pushed + [ordered[i]];
    assert SetOf(desc + [i]) == SetOf(desc) + {i};
  }

  /** A forward `retrieveMany` that took `limit` tokens has done what `RetrievedForward` says. */
  lemma ForwardAtLimit(ordered: seq<Token>, s0: WrapperState, s: WrapperState, start: int, i: int, limit: Limit, tokens: seq<Token>)
    requires ValidState(s0, |ordered|)
    requires 0 <= start <= i <= |ordered| && ForwardSoFar(ordered, s0, s, start, i, tokens)
    requires limit.AtMost? && |tokens| == limit.n >= 1
    ensures RetrievedForward(ordered, s0, s, start, limit, tokens)
    ensures ValidState(s, |ordered|)
  {
    ForwardStopsAtLimit(s0.usedIndices, start, i, |ordered|, limit);
    UnusedBounds(s0.usedIndices, start, i);
    UseMoreKeepsValid(s0, |ordered|, Unused(s0.usedIndices, start, i));
  }

  /** A forward `retrieveMany` that ran off the end has done what `RetrievedForward` says. */
  lemma ForwardAtEnd(ordered: seq<Token>, s0: WrapperState, s: WrapperState, start: int, i: int, limit: Limit, tokens: seq<Token>)
    requires ValidState(s0, |ordered|)
    requires 0 <= start <= i && |ordered| <= i && (start <= |ordered| ==> i == |ordered|) && (|ordered| < start ==> i == start)
    requires ForwardSoFar(ordered, s0, s, start, i, tokens)
    requires !Capped(limit, |tokens|)
    ensures RetrievedForward(ordered, s0, s, start, limit, tokens)
    ensures ValidState(s, |ordered|)
  {
    ForwardRunsToEnd(s0.usedIndices, start, i, |ordered|, limit);
    UnusedBounds(s0.usedIndices, start, i);
    UseMoreKeepsValid(s0, |ordered|, Unused(s0.usedIndices, start, i));
  }

  lemma SetOfReverse(xs: seq<int>)
    ensures SetOf(xs) == SetOf(Reverse(xs))
  {
    ReverseMembers(xs);
    SetOfMembers(xs);
    SetOfMembers(Reverse(xs));
    forall j
      ensures j in SetOf(xs) <==> j in SetOf(Reverse(xs))
    {
      assert j in Reverse(xs) <==> j in xs;
    }
  }

  /** The tokens a backward scan pushed, reversed, are those of the forward candidates. */
  lemma BackwardInOrder(ordered: seq<Token>, s0: WrapperState, s: WrapperState, start: int, i: int, desc: seq<int>, pushed: seq<Token>)
    requires BackwardSoFar(ordered, s0, s, start, i, desc, pushed)
    ensures Reverse(desc) == Unused(s0.usedIndices, i + 1, start + 1)
    ensures Reverse(pushed) == TokensAt(ordered, Reverse(desc))
    ensures SetOf(desc) == SetOf(Reverse(desc))
  {
    UnusedDownReversed(s0.usedIndices, i + 1, start + 1);
    TokensAtReverse(ordered, desc);
    SetOfReverse(desc);
  }

  /** A backward `retrieveMany` that took `limit` tokens has done what `RetrievedBackward` says. */
  lemma BackwardAtLimit(ordered: seq<Token>, s0: WrapperState, s: WrapperState, start: int, i: int, limit: Limit, desc: seq<int>, pushed: seq<Token>)
    requires ValidState(s0, |ordered|)
    requires -1 <= i <= start < |ordered| && BackwardSoFar(ordered, s0, s, start, i, desc, pushed)
    requires limit.AtMost? && |desc| == limit.n >= 1
    ensures RetrievedBackward(ordered, s0, s, start, limit, Reverse(pushed))
    ensures ValidState(s, |ordered|)
  {
    BackwardInOrder(ordered, s0, s, start, i, desc, pushed);
    BackwardStopsAtLimit(s0.usedIndices, i + 1, start + 1, limit);
    UnusedBounds(s0.usedIndices, i + 1, start + 1);
    UseMoreKeepsValid(s0, |ordered|, Reverse(desc));
  }

  /** A backward `retrieveMany` that ran past index 0 has done what `RetrievedBackward` says. */
  lemma BackwardAtEnd(ordered: seq<Token>, s0: WrapperState, s: WrapperState, start: int, i: int, limit: Limit, desc: seq<int>, pushed: seq<Token>)
    requires ValidState(s0, |ordered|) && start < |ordered|
    requires i <= start && (-1 <= start ==> i == -1) && (start < -1 ==> i == start)
    requires BackwardSoFar(ordered, s0, s, start, i, desc, pushed)
    requires !Capped(limit, |desc|)
    ensures RetrievedBackward(ordered, s0, s, start, limit, Reverse(pushed))
    ensures ValidState(s, |ordered|)
  {
    BackwardInOrder(ordered, s0, s, start, i, desc, pushed);
    BackwardRunsToEnd(s0.usedIndices, i, start + 1, limit);
    UnusedBounds(s0.usedIndices, i + 1, start + 1);
    UseMoreKeepsValid(s0, |ordered|, Reverse(desc));
  }
}
