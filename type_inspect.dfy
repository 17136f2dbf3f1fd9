// The type-string inspector of src/lib/utils/type/index.ts. The runtime
// reflection that classifies a value (`getMetadata`) is replaced by a
// metadata tree given as input.
module TypeInspect {
  import opened Monads

  /**
   * The metadata of a value: the unknown marker (`unknownValueSymbol`), or one
   * of the four kinds of `ValueKind`, with the children a value exposes.
   */
  datatype Metadata =
    | Unknown
    | Simple(typeName: string)
    | ContainerLike(typeName: string, inner: Metadata)
    | SequenceLike(typeName: string, defaultType: Maybe<string>, values: seq<Metadata>)
    | MapLike(typeName: string, defaultType: Maybe<string>, entries: seq<(Metadata, Metadata)>)

  /** `TypeInspectionOptions`, with its defaults filled in. */
  datatype Options = Options(depth: int, maxMapLikeSize: int, maxSequenceLikeSize: int, maxUnionConstituents: int)

  /** The options for a given depth when no limit is given. */
  function DefaultOptions(depth: int): (o: Options)
    ensures o.depth == depth
    ensures o.maxMapLikeSize == 200 && o.maxSequenceLikeSize == 200 && o.maxUnionConstituents == 3
  {
    Options(depth, 200, 200, 3)
  }

  /** The options children are inspected with: one level less deep. */
  function Deeper(o: Options): (r: Options)
    ensures r.depth == o.depth - 1 && r.(depth := o.depth) == o
  {
    o.(depth := o.depth - 1)
  }

  /** JavaScript's default sort order on strings: lexicographic on code units. */
  predicate Below(a: string, b: string)
  {
    if a == [] then b != []
    else if b == [] then false
    else if a[0] == b[0] then Below(a[1..], b[1..])
    else a[0] < b[0]
  }

  /** Of two different strings, one sorts before the other. */
  lemma {:induction false} BelowTotal(a: string, b: string)
    requires a != b
    ensures Below(a, b) || Below(b, a)
  {
    if a != [] && b != [] && a[0] == b[0] {
      assert a == [a[0]] + a[1..] && b == [b[0]] + b[1..];
      BelowTotal(a[1..], b[1..]);
    }
  }

  /** Each string sorts after its predecessor. */
  predicate Sorted(s: seq<string>)
  {
    forall i :: 0 <= i < |s| - 1 ==> Below(s[i], s[i + 1])
  }

  /** No string occurs twice. */
  predicate NoDuplicates(s: seq<string>)
  {
    s == [] || (s[0] !in s[1..] && NoDuplicates(s[1..]))
  }

  /** `x` placed before the first string it sorts below. */
  function Place(s: seq<string>, x: string): (r: seq<string>)
    ensures |r| == |s| + 1
  {
    if s == [] then [x]
    else if Below(x, s[0]) then [x] + s
    else [s[0]] + Place(s[1..], x)
  }

  /** Placing adds `x` and keeps every other string. */
  lemma {:induction false} PlaceElements(s: seq<string>, x: string)
    ensures forall y :: y in Place(s, x) <==> y in s || y == x
  {
    if s != [] && !Below(x, s[0]) {
      PlaceElements(s[1..], x);
      assert s == [s[0]] + s[1..];
    }
  }

  /** Placing a new string keeps a sorted sequence sorted and free of duplicates. */
  lemma {:induction false} PlaceSorted(s: seq<string>, x: string)
    requires Sorted(s) && NoDuplicates(s) && x !in s
    ensures Sorted(Place(s, x)) && NoDuplicates(Place(s, x))
    ensures Place(s, x)[0] == x || (s != [] && Place(s, x)[0] == s[0])
  {
    if s != [] && !Below(x, s[0]) {
      BelowTotal(x, s[0]);
      PlaceSorted(s[1..], x);
      PlaceElements(s[1..], x);
      var r := Place(s, x);
      assert r == [s[0]] + Place(s[1..], x);
      assert r[1..] == Place(s[1..], x);
      forall i | 0 <= i < |r| - 1
        ensures Below(r[i], r[i + 1])
      {
        if i > 0 {
          assert r[i] == r[1..][i - 1] && r[i + 1] == r[1..][i];
        }
      }
    }
  }

  /** `set.add(x)` on a set kept as a sorted sequence. */
  function Insert(s: seq<string>, x: string): (r: seq<string>)
    ensures |r| == if x in s then |s| else |s| + 1
  {
    if x in s then s else Place(s, x)
  }

  /** The distinct strings of `ts`, as `[...new Set(ts)].sort()`. */
  function Union(ts: seq<string>): (r: seq<string>)
    ensures |r| <= |ts|
    ensures ts != [] ==> |r| >= 1
  {
    if ts == [] then [] else Insert(Union(ts[..|ts| - 1]), ts[|ts| - 1])
  }

  /** A union holds exactly the strings of its input. */
  lemma {:induction false} UnionElements(ts: seq<string>)
    ensures forall y :: y in Union(ts) <==> y in ts
  {
    if ts != [] {
      var init := ts[..|ts| - 1];
      UnionElements(init);
      PlaceElements(Union(init), ts[|ts| - 1]);
      assert ts == init + [ts[|ts| - 1]];
    }
  }

  /** A union is sorted, and holds each string once. */
  lemma {:induction false} UnionSorted(ts: seq<string>)
    ensures Sorted(Union(ts)) && NoDuplicates(Union(ts))
  {
    if ts != [] {
      var u := Union(ts[..|ts| - 1]);
      UnionSorted(ts[..|ts| - 1]);
      if ts[|ts| - 1] !in u {
        PlaceSorted(u, ts[|ts| - 1]);
      }
    }
  }

  /** A union over a prefix is no larger than the union over the whole. */
  lemma {:induction false} UnionGrows(ts: seq<string>, j: nat)
    requires j <= |ts|
    ensures |Union(ts[..j])| <= |Union(ts)|
  {
    if j == |ts| {
      assert ts[..j] == ts;
    } else {
      var init := ts[..|ts| - 1];
      UnionGrows(init, j);
      assert init[..j] == ts[..j];
    }
  }

  /** `strings.join(' | ')`. */
  function JoinTypes(ts: seq<string>): (r: string)
    ensures |ts| == 1 ==> r == ts[0]
  {
    if ts == [] then "" else if |ts| == 1 then ts[0] else ts[0] + " | " + JoinTypes(ts[1..])
  }

  /** The type of a sequence- or map-like value that is not inspected. */
  function Fallback(typeName: string, defaultType: Maybe<string>, arguments: string): (r: string)
    ensures defaultType.Some? ==> r == defaultType.value
    ensures defaultType.None? ==> r == typeName + "<" + arguments + ">"
  {
    if defaultType.Some? then defaultType.value else typeName + "<" + arguments + ">"
  }

  /** The type string of a sequence-like value whose element types are inspected. */
  function SequenceResult(typeName: string, defaultType: Maybe<string>, valueTypes: seq<string>, max: int): (r: string)
  {
    var u := Union(valueTypes);
    if |u| > max then Fallback(typeName, defaultType, "unknown")
    else typeName + "<" + JoinTypes(u) + ">"
  }

  /** The type string of a map-like value whose key and value types are inspected. */
  function MapResult(typeName: string, defaultType: Maybe<string>, keyTypes: seq<string>, valueTypes: seq<string>, max: int): (r: string)
  {
    var ku := Union(keyTypes);
    var vu := Union(valueTypes);
    if |ku| > max && |vu| > max then Fallback(typeName, defaultType, "unknown, unknown")
    else
      var keys := if |ku| <= max then JoinTypes(ku) else "unknown";
      var values := if |vu| <= max then JoinTypes(vu) else "unknown";
      typeName + "<" + keys + ", " + values + ">"
  }

  /**
   * `inspectTypeOf(value, options)`: the type string of the value. Children
   * are inspected one level less deep; a union of more than
   * `maxUnionConstituents` types is not spelled out.
   */
  function Inspect(m: Metadata, o: Options): (r: string)
    decreases m, 1
  {
    match m
    case Unknown => "unknown"
    case Simple(typeName) => typeName
    case ContainerLike(typeName, inner) =>
      if o.depth == 0 then typeName + "<unknown>"
      else typeName + "<" + Inspect(inner, Deeper(o)) + ">"
    case SequenceLike(typeName, defaultType, values) =>
      if o.depth == 0 || |values| > o.maxSequenceLikeSize || |values| == 0 then
        Fallback(typeName, defaultType, "unknown")
      else SequenceResult(typeName, defaultType, ValueTypes(m, o), o.maxUnionConstituents)
    case MapLike(typeName, defaultType, entries) =>
      if o.depth == 0 || |entries| > o.maxMapLikeSize || |entries| == 0 then
        Fallback(typeName, defaultType, "unknown, unknown")
      else MapResult(typeName, defaultType, KeyTypes(m, o), EntryValueTypes(m, o), o.maxUnionConstituents)
  }

  /** The types of a sequence's elements, one level deeper. */
  function ValueTypes(m: Metadata, o: Options): (r: seq<string>)
    requires m.SequenceLike?
    ensures |r| == |m.values| && forall i :: 0 <= i < |r| ==> r[i] == Inspect(m.values[i], Deeper(o))
    decreases m, 0
  {
    seq(|m.values|, i requires 0 <= i < |m.values| => Inspect(m.values[i], Deeper(o)))
  }

  /** The types of a map's keys, one level deeper. */
  function KeyTypes(m: Metadata, o: Options): (r: seq<string>)
    requires m.MapLike?
    ensures |r| == |m.entries| && forall i :: 0 <= i < |r| ==> r[i] == Inspect(m.entries[i].0, Deeper(o))
    decreases m, 0
  {
    seq(|m.entries|, i requires 0 <= i < |m.entries| => Inspect(m.entries[i].0, Deeper(o)))
  }

  /** The types of a map's values, one level deeper. */
  function EntryValueTypes(m: Metadata, o: Options): (r: seq<string>)
    requires m.MapLike?
    ensures |r| == |m.entries| && forall i :: 0 <= i < |r| ==> r[i] == Inspect(m.entries[i].1, Deeper(o))
    decreases m, 0
  {
    seq(|m.entries|, i requires 0 <= i < |m.entries| => Inspect(m.entries[i].1, Deeper(o)))
  }

  /** The distinct strings of a sequence. */
  function Elements(ts: seq<string>): (r: set<string>)
    ensures forall y :: y in r <==> y in ts
  {
    if ts == [] then {} else Elements(ts[..|ts| - 1]) + {ts[|ts| - 1]}
  }

  /** A union has one string per distinct string of its input. */
  lemma {:induction false} UnionSize(ts: seq<string>)
    ensures |Union(ts)| == |Elements(ts)|
  {
    if ts != [] {
      var init, x := ts[..|ts| - 1], ts[|ts| - 1];
      UnionSize(init);
      UnionElements(init);
      assert Elements(ts) == Elements(init) + {x};
      assert Union(ts) == Insert(Union(init), x);
      if x in init {
        assert x in Union(init) && x in Elements(init);
        assert Elements(init) + {x} == Elements(init);
      } else {
        assert x !in Union(init) && x !in Elements(init);
        assert |Elements(init) + {x}| == |Elements(init)| + 1;
      }
    }
  }

  /**
   * The state of a loop that collects the union of `ts[..i]` while it has at
   * most `max` strings: `valid` says whether it still has, and then `acc` is it.
   */
  predicate Tracking(ts: seq<string>, max: int, i: nat, acc: seq<string>, valid: bool)
  {
    && i <= |ts|
    && (valid ==> acc == Union(ts[..i]))
    && (valid <==> i == 0 || |Union(ts[..i])| <= max)
  }

  /** One iteration: a valid union takes `ts[i]` and is checked against the cap. */
  lemma TrackStep(ts: seq<string>, max: int, i: nat, acc: seq<string>, valid: bool, acc': seq<string>, valid': bool)
    requires Tracking(ts, max, i, acc, valid) && i < |ts|
    requires acc' == (if valid then Insert(acc, ts[i]) else acc)
    requires valid' == (valid && |acc'| <= max)
    ensures Tracking(ts, max, i + 1, acc', valid')
  {
    assert ts[..i + 1][..i] == ts[..i];
    UnionGrows(ts[..i + 1], i);
  }

  /** Once a union has grown past the cap, so has the union over the whole input. */
  lemma TrackExceeded(ts: seq<string>, max: int, i: nat, acc: seq<string>, valid: bool)
    requires Tracking(ts, max, i, acc, valid) && !valid
    ensures |Union(ts)| > max
  {
    UnionGrows(ts, i);
  }

  /** At the end of the input, a valid union is the union of all of it. */
  lemma TrackDone(ts: seq<string>, max: int, i: nat, acc: seq<string>, valid: bool)
    requires Tracking(ts, max, i, acc, valid) && i == |ts| && ts != []
    ensures valid <==> |Union(ts)| <= max
    ensures valid ==> acc == Union(ts)
  {
    assert ts[..|ts|] == ts;
  }

  /**
   * The spelled-out union of a sequence-like value within every cap: its
   * element types, each once, in sorted order, at most
   * `maxUnionConstituents` of them.
   */
  lemma SequenceUnion(m: Metadata, o: Options)
    requires m.SequenceLike? && o.depth != 0 && 0 < |m.values| <= o.maxSequenceLikeSize
    ensures var types := ValueTypes(m, o);
      var u := Union(types);
      && Sorted(u) && NoDuplicates(u) && (forall t :: t in u <==> t in types)
      && (|u| <= o.maxUnionConstituents ==> Inspect(m, o) == m.typeName + "<" + JoinTypes(u) + ">")
      && (|u| > o.maxUnionConstituents ==> Inspect(m, o) == Fallback(m.typeName, m.defaultType, "unknown"))
  {
    UnionSorted(ValueTypes(m, o));
    UnionElements(ValueTypes(m, o));
  }

  /**
   * The type string of a map-like value within the size caps: the key and
   * the value unions (sorted and without repeats, by `UnionSorted`) spelled
   * out when they have at most `maxUnionConstituents` members and `unknown`
   * otherwise; the default type only when both are over the cap.
   */
  lemma MapUnion(m: Metadata, o: Options)
    requires m.MapLike? && o.depth != 0 && 0 < |m.entries| <= o.maxMapLikeSize
    ensures var ku := Union(KeyTypes(m, o));
      var vu := Union(EntryValueTypes(m, o));
      var max := o.maxUnionConstituents;
      && (|ku| > max && |vu| > max ==> Inspect(m, o) == Fallback(m.typeName, m.defaultType, "unknown, unknown"))
      && (|ku| <= max || |vu| <= max ==>
            Inspect(m, o) == m.typeName + "<" + (if |ku| <= max then JoinTypes(ku) else "unknown") + ", "
                             + (if |vu| <= max then JoinTypes(vu) else "unknown") + ">")
  {
    MapInspected(m, o);
  }

  /** Within the size caps, a map-like value's type string is built from its inspected keys and values. */
  lemma MapInspected(m: Metadata, o: Options)
    requires m.MapLike? && o.depth != 0 && 0 < |m.entries| <= o.maxMapLikeSize
    ensures Inspect(m, o) == MapResult(m.typeName, m.defaultType, KeyTypes(m, o), EntryValueTypes(m, o), o.maxUnionConstituents)
  {
  }

  /** The unknown marker and simple values, from the unit tests. */
  lemma SimpleExamples()
    ensures Inspect(Unknown, DefaultOptions(0)) == "unknown"
    ensures Inspect(Simple("null"), DefaultOptions(1)) == "null"
  {
  }

  /** A proxy around a function, at depth 0 and 1. */
  lemma ContainerExamples()
    ensures Inspect(ContainerLike("Proxy", Simple("Function")), DefaultOptions(0)) == "Proxy<unknown>"
    ensures Inspect(ContainerLike("Proxy", Simple("Function")), DefaultOptions(1)) == "Proxy<Function>"
  {
  }

  /** An empty set is not inspected. */
  lemma EmptySetExample()
    ensures Inspect(SequenceLike("Set", None, []), DefaultOptions(1)) == "Set<unknown>"
  {
  }

  /** A set at depth 0 is not inspected. */
  lemma ShallowSetExample()
    ensures Inspect(SequenceLike("Set", None, [Simple("number")]), DefaultOptions(0)) == "Set<unknown>"
  {
  }

  /** An empty map is not inspected. */
  lemma EmptyMapExample()
    ensures Inspect(MapLike("Map", None, []), DefaultOptions(1)) == "Map<unknown, unknown>"
  {
  }

  /**
   * A sequence- or map-like value that is not inspected (at depth 0, empty,
   * or larger than its size cap) prints its default type when it has one,
   * and otherwise its type name with `unknown` arguments.
   */
  lemma UninspectedFallback(m: Metadata, o: Options)
    requires m.SequenceLike? || m.MapLike?
    requires || o.depth == 0
             || (m.SequenceLike? && (|m.values| == 0 || |m.values| > o.maxSequenceLikeSize))
             || (m.MapLike? && (|m.entries| == 0 || |m.entries| > o.maxMapLikeSize))
    ensures m.defaultType.Some? ==> Inspect(m, o) == m.defaultType.value
    ensures m.defaultType.None? && m.SequenceLike? ==> Inspect(m, o) == m.typeName + "<unknown>"
    ensures m.defaultType.None? && m.MapLike? ==> Inspect(m, o) == m.typeName + "<unknown, unknown>"
  {
    if m.SequenceLike? {
      assert Inspect(m, o) == Fallback(m.typeName, m.defaultType, "unknown");
    } else {
      assert Inspect(m, o) == Fallback(m.typeName, m.defaultType, "unknown, unknown");
    }
  }

  /** A set of 201 numbers at depth 1 is over the default cap of 200. */
  lemma OversizeSetExample()
    ensures Inspect(SequenceLike("Set", None, seq(201, i => Simple("number"))), DefaultOptions(1)) == "Set<unknown>"
  {
    UninspectedFallback(SequenceLike("Set", None, seq(201, i => Simple("number"))), DefaultOptions(1));
  }

  /** A map of 201 number keys to strings at depth 1 is over the default cap of 200. */
  lemma OversizeMapExample()
    ensures Inspect(MapLike("Map", None, seq(201, i => (Simple("number"), Simple("string")))), DefaultOptions(1))
      == "Map<unknown, unknown>"
  {
    UninspectedFallback(MapLike("Map", None, seq(201, i => (Simple("number"), Simple("string")))), DefaultOptions(1));
  }

  /** The set `{'hello', 'world', 123}` at depth 1. */
  lemma SetExample()
    ensures Inspect(SequenceLike("Set", None, [Simple("string"), Simple("string"), Simple("number")]), DefaultOptions(1))
      == "Set<number | string>"
  {
    var m := SequenceLike("Set", None, [Simple("string"), Simple("string"), Simple("number")]);
    var types := ValueTypes(m, DefaultOptions(1));
    assert types == ["string", "string", "number"];
    assert types[..2][..1] == ["string"];
    assert Union(types[..2]) == ["string"];
    assert Below("number", "string");
    assert Union(types) == ["number", "string"];
  }

  /** `inspectTypeOf`: the same type string, computed by the loops of the source. */
  method InspectTypeOf(m: Metadata, o: Options) returns (r: string)
    ensures r == Inspect(m, o)
    decreases m, 1
  {
    match m
    case Unknown =>
      return "unknown";
    case Simple(typeName) =>
      return typeName;
    case ContainerLike(typeName, inner) =>
      if o.depth == 0 {
        return typeName + "<unknown>";
      }
      var valueType := InspectTypeOf(inner, Deeper(o));
      return typeName + "<" + valueType + ">";
    case SequenceLike(_, _, _) =>
      r := InspectSequence(m, o);
    case MapLike(_, _, _) =>
      r := InspectMap(m, o);
  }

  /** The sequence-like branch: element types are collected until the union grows past the cap. */
  method InspectSequence(m: Metadata, o: Options) returns (r: string)
    requires m.SequenceLike?
    ensures r == Inspect(m, o)
    decreases m, 0
  {
    var values := m.values;
    if o.depth == 0 || |values| > o.maxSequenceLikeSize || |values| == 0 {
      return Fallback(m.typeName, m.defaultType, "unknown");
    }
    var inner := Deeper(o);
    ghost var types := ValueTypes(m, o);
    var valueTypes: seq<string> := [];
    var valid := true;
    var i := 0;
    while i < |values|
      invariant Tracking(types, o.maxUnionConstituents, i, valueTypes, valid) && valid
    {
      valueTypes, valid := Collect(types, o.maxUnionConstituents, i, valueTypes, valid, values[i], inner);
      i := i + 1;
      if !valid {
        break;
      }
    }
    if !valid {
      TrackExceeded(types, o.maxUnionConstituents, i, valueTypes, false);
      return Fallback(m.typeName, m.defaultType, "unknown");
    }
    TrackDone(types, o.maxUnionConstituents, i, valueTypes, valid);
    return m.typeName + "<" + JoinTypes(valueTypes) + ">";
  }

  /**
   * The map-like branch: key and value types are collected separately, each
   * until its union grows past the cap; when both have, the default is returned.
   */
  method InspectMap(m: Metadata, o: Options) returns (r: string)
    requires m.MapLike?
    ensures r == Inspect(m, o)
    decreases m, 0
  {
    var entries := m.entries;
    if o.depth == 0 || |entries| > o.maxMapLikeSize || |entries| == 0 {
      return Fallback(m.typeName, m.defaultType, "unknown, unknown");
    }
    var inner := Deeper(o);
    var max := o.maxUnionConstituents;
    ghost var kts := KeyTypes(m, o);
    ghost var vts := EntryValueTypes(m, o);
    var keyTypes: seq<string> := [];
    var valueTypes: seq<string> := [];
    var areKeyTypesValid := true;
    var areValueTypesValid := true;
    var i := 0;
    while i < |entries|
      invariant Tracking(kts, max, i, keyTypes, areKeyTypesValid)
      invariant Tracking(vts, max, i, valueTypes, areValueTypesValid)
      invariant |kts| == |vts| == |entries|
      invariant areKeyTypesValid || areValueTypesValid
    {
      keyTypes, areKeyTypesValid := Collect(kts, max, i, keyTypes, areKeyTypesValid, entries[i].0, inner);
      valueTypes, areValueTypesValid := Collect(vts, max, i, valueTypes, areValueTypesValid, entries[i].1, inner);
      if !areKeyTypesValid && !areValueTypesValid {
        TrackExceeded(kts, max, i + 1, keyTypes, false);
        TrackExceeded(vts, max, i + 1, valueTypes, false);
        return Fallback(m.typeName, m.defaultType, "unknown, unknown");
      }
      i := i + 1;
    }
    TrackDone(kts, max, i, keyTypes, areKeyTypesValid);
    TrackDone(vts, max, i, valueTypes, areValueTypesValid);
    var stringifiedKeyTypes := if areKeyTypesValid then JoinTypes(keyTypes) else "unknown";
    var stringifiedValueTypes := if areValueTypesValid then JoinTypes(valueTypes) else "unknown";
    return m.typeName + "<" + stringifiedKeyTypes + ", " + stringifiedValueTypes + ">";
  }

  /**
   * One child of a sequence or map: while the union is within the cap, the
   * child's type joins it, and the union is checked against the cap.
   */
  method Collect(ghost ts: seq<string>, max: int, ghost i: nat, acc: seq<string>, valid: bool, child: Metadata, o: Options)
    returns (acc': seq<string>, valid': bool)
    requires Tracking(ts, max, i, acc, valid) && i < |ts| && ts[i] == Inspect(child, o)
    ensures Tracking(ts, max, i + 1, acc', valid')
    decreases child, 2
  {
    acc', valid' := acc, valid;
    if valid {
      var t := InspectTypeOf(child, o);
      acc' := Insert(acc, t);
    }
    if valid' && |acc'| > max {
      valid' := false;
    }
    TrackStep(ts, max, i, acc, valid, acc', valid');
  }
}
