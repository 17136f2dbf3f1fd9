// The singly linked list and its modifying iterator of
// src/lib/utils/collections/LinkedList.ts. The `Node` objects are the entries
// of a map from node identities, so a node that has been unlinked keeps its
// value and its `next` link as it does in the source; the ghost `order` lists
// the nodes reachable from `head`, front to back. A `throw` is a `true`
// `thrown` result (or `None`) with nothing changed beyond what the source
// changed before throwing.
module LinkedList {
  import opened Monads

  /** A `Node`: its value and the identity of the node after it, if any. */
  datatype Node<T> = Node(value: T, next: Maybe<nat>)

  /** The first position of `x` in `s`. */
  function IndexOf(s: seq<nat>, x: nat): (i: nat)
    requires x in s
    ensures i < |s| && s[i] == x && x !in s[..(i)]
  {
    if s[0] == x then 0
    else
      var j := IndexOf(s[1..], x);
      assert s[..j + 1] == [s[0]] + s[1..][..j];
      j + 1
  }

  /** The link the `k`th node of a well-formed chain `order` carries. */
  function Successor(order: seq<nat>, k: nat): Maybe<nat>
    requires k < |order|
  {
    if k + 1 < |order| then Some(order[k + 1]) else None
  }

  /** No identity occurs twice in `s`. */
  ghost predicate Distinct(s: seq<nat>)
  {
    forall j, k :: 0 <= j < k < |s| ==> s[j] != s[k]
  }

  /** In a chain without repeats, the position of an element is the one it is found at. */
  lemma IndexOfDistinct(s: seq<nat>, k: nat)
    requires Distinct(s) && k < |s|
    ensures IndexOf(s, s[k]) == k
  {
  }

  /** Every node of `order` exists and links to the one after it; the last links to nothing. */
  ghost predicate Chain<T>(nodes: map<nat, Node<T>>, order: seq<nat>)
  {
    && Distinct(order)
    && (forall k :: 0 <= k < |order| ==> order[k] in nodes)
    && (forall k {:trigger nodes[order[k]]} :: 0 <= k < |order| ==> nodes[order[k]].next == Successor(order, k))
  }

  /** Every identity is below `nextId`, and every link leads to an existing node. */
  ghost predicate Closed<T>(nodes: map<nat, Node<T>>, nextId: nat)
  {
    forall id :: id in nodes ==> id < nextId && (nodes[id].next.Some? ==> nodes[id].next.value in nodes)
  }

  /** The values held by the nodes of `order`, in order. */
  function Values<T>(nodes: map<nat, Node<T>>, order: seq<nat>): (r: seq<T>)
    requires forall k :: 0 <= k < |order| ==> order[k] in nodes
    ensures |r| == |order|
    ensures forall k :: 0 <= k < |order| ==> r[k] == nodes[order[k]].value
  {
    seq(|order|, k requires 0 <= k < |order| => nodes[order[k]].value)
  }

  /** A change to nodes off the chain changes neither the chain nor its values. */
  lemma ChainFrame<T>(nodes: map<nat, Node<T>>, order: seq<nat>, nodes': map<nat, Node<T>>)
    requires Chain(nodes, order)
    requires forall k :: 0 <= k < |order| ==> order[k] in nodes' && nodes'[order[k]] == nodes[order[k]]
    ensures Chain(nodes', order) && Values(nodes', order) == Values(nodes, order)
  {
  }

  /** The chain with the node at position `k` cut out. */
  function Without(order: seq<nat>, k: nat): seq<nat>
    requires k < |order|
  {
    order[..k] + order[k + 1..]
  }

  /** The chain with `id` put in after position `k`. */
  function WithAfter(order: seq<nat>, k: nat, id: nat): seq<nat>
    requires k < |order|
  {
    order[..k + 1] + [id] + order[k + 1..]
  }

  /** Cutting a position out of a chain without repeats leaves none. */
  lemma DistinctWithout(order: seq<nat>, k: nat)
    requires k < |order| && Distinct(order)
    ensures Distinct(Without(order, k))
  {
    var o := Without(order, k);
    forall i, j | 0 <= i < j < |o|
      ensures o[i] != o[j]
    {
      var i' := if i < k then i else i + 1;
      var j' := if j < k then j else j + 1;
      assert o[i] == order[i'] && o[j] == order[j'];
    }
  }

  /** After linking past position `k`, the node before it links to the node after it. */
  lemma ChainRemoveLinked<T>(nodes: map<nat, Node<T>>, order: seq<nat>, k: nat, nodes': map<nat, Node<T>>)
    requires 0 < k < |order| && Chain(nodes, order)
    requires nodes' == nodes[order[k - 1] := nodes[order[k - 1]].(next := nodes[order[k]].next)]
    ensures Without(order, k)[k - 1] in nodes'
    ensures nodes'[Without(order, k)[k - 1]].next == Successor(Without(order, k), k - 1)
    ensures nodes'[Without(order, k)[k - 1]].value == nodes[order[k - 1]].value
  {
    var o := Without(order, k);
    assert o[k - 1] == order[k - 1];
    assert nodes[order[k]].next == Successor(order, k);
    if k + 1 < |order| {
      assert o[k] == order[k + 1];
    }
  }

  /**
   * After linking past position `k`, any other node of the chain, at
   * position `j` before the cut, keeps its link.
   */
  lemma ChainRemoveKept<T>(nodes: map<nat, Node<T>>, order: seq<nat>, k: nat, nodes': map<nat, Node<T>>, j: nat)
    requires 0 < k < |order| && j < |order| && j != k - 1 && j != k && order[k - 1] in nodes && order[k] in nodes
    requires nodes' == nodes[order[k - 1] := nodes[order[k - 1]].(next := nodes[order[k]].next)]
    requires order[j] in nodes && order[j] != order[k - 1] && nodes[order[j]].next == Successor(order, j)
    ensures var i := if j < k then j else j - 1;
      && Without(order, k)[i] in nodes'
      && nodes'[Without(order, k)[i]].next == Successor(Without(order, k), i)
      && nodes'[Without(order, k)[i]].value == nodes[order[j]].value
  {
    var o := Without(order, k);
    var i := if j < k then j else j - 1;
    assert o[i] == order[j];
    if i + 1 < |o| {
      assert o[i + 1] == order[j + 1];
    }
  }

  /** Linking the node before position `k` past it leaves a chain without it. */
  lemma {:induction false} ChainRemove<T>(nodes: map<nat, Node<T>>, order: seq<nat>, k: nat, nodes': map<nat, Node<T>>)
    requires 0 < k < |order| && Chain(nodes, order)
    requires nodes' == nodes[order[k - 1] := nodes[order[k - 1]].(next := nodes[order[k]].next)]
    ensures Chain(nodes', Without(order, k))
    ensures Values(nodes', Without(order, k)) == Values(nodes, order)[..k] + Values(nodes, order)[k + 1..]
  {
    var o := Without(order, k);
    DistinctWithout(order, k);
    forall i | 0 <= i < |o|
      ensures o[i] in nodes' && nodes'[o[i]].next == Successor(o, i)
      ensures nodes'[o[i]].value == nodes[order[if i < k then i else i + 1]].value
    {
      if i == k - 1 {
        ChainRemoveLinked(nodes, order, k, nodes');
      } else {
        var j := if i < k then i else i + 1;
        assert order[j] in nodes && order[j] != order[k - 1] && nodes[order[j]].next == Successor(order, j);
        ChainRemoveKept(nodes, order, k, nodes', j);
      }
    }
  }

  /** Putting an identity not yet in a chain without repeats into it leaves none. */
  lemma DistinctWithAfter(order: seq<nat>, k: nat, id: nat)
    requires k < |order| && Distinct(order) && id !in order
    ensures Distinct(WithAfter(order, k, id))
  {
    var o := WithAfter(order, k, id);
    forall i, j | 0 <= i < j < |o|
      ensures o[i] != o[j]
    {
      if i != k + 1 && j != k + 1 {
        var i' := if i <= k then i else i - 1;
        var j' := if j <= k then j else j - 1;
        assert o[i] == order[i'] && o[j] == order[j'];
      } else if i == k + 1 {
        assert o[j] == order[j - 1];
      } else {
        assert o[i] == order[i];
      }
    }
  }

  /** The node at position `i` of the lengthened chain, after linking `id` in after position `k`. */
  lemma ChainInsertAt<T>(nodes: map<nat, Node<T>>, order: seq<nat>, k: nat, id: nat, value: T, nodes': map<nat, Node<T>>, i: nat)
    requires k < |order| && Chain(nodes, order) && id !in nodes
    requires nodes' == nodes[id := Node(value, nodes[order[k]].next)][order[k] := nodes[order[k]].(next := Some(id))]
    requires i <= |order|
    ensures WithAfter(order, k, id)[i] in nodes'
    ensures nodes'[WithAfter(order, k, id)[i]].next == Successor(WithAfter(order, k, id), i)
    ensures nodes'[WithAfter(order, k, id)[i]].value
      == if i == k + 1 then value else nodes[order[if i <= k then i else i - 1]].value
  {
    var o := WithAfter(order, k, id);
    if i < k {
      assert o[i] == order[i] && order[i] != order[k] && Successor(o, i) == Successor(order, i);
    } else if i == k {
      assert o[i] == order[k];
    } else if i == k + 1 {
      assert Successor(o, i) == Successor(order, k);
    } else {
      assert o[i] == order[i - 1] && order[i - 1] != order[k] && Successor(o, i) == Successor(order, i - 1);
    }
  }

  /** A new node `id` linked in front of a chain extends it there. */
  lemma {:induction false} ChainCons<T>(nodes: map<nat, Node<T>>, order: seq<nat>, id: nat, value: T, nodes': map<nat, Node<T>>)
    requires Chain(nodes, order) && id !in nodes
    requires nodes' == nodes[id := Node(value, if order == [] then None else Some(order[0]))]
    ensures Chain(nodes', [id] + order)
    ensures Values(nodes', [id] + order) == [value] + Values(nodes, order)
  {
    var o := [id] + order;
    assert Distinct(o) by {
      forall i, j | 0 <= i < j < |o|
        ensures o[i] != o[j]
      {
        assert o[j] == order[j - 1] && order[j - 1] in nodes;
        if i > 0 {
          assert o[i] == order[i - 1];
        }
      }
    }
    forall i | 0 <= i < |o|
      ensures o[i] in nodes' && nodes'[o[i]].next == Successor(o, i)
      ensures nodes'[o[i]].value == if i == 0 then value else nodes[order[i - 1]].value
    {
      if i > 0 {
        assert o[i] == order[i - 1] && Successor(o, i) == Successor(order, i - 1);
        assert nodes[order[i - 1]].next == Successor(order, i - 1);
      }
    }
  }

  /** Linking a new node `id` in after node `c` keeps every link leading to an existing node. */
  lemma ClosedInsert<T>(nodes: map<nat, Node<T>>, nextId: nat, c: nat, id: nat, value: T, nodes': map<nat, Node<T>>)
    requires Closed(nodes, nextId) && c in nodes && id == nextId
    requires nodes' == nodes[id := Node(value, nodes[c].next)][c := nodes[c].(next := Some(id))]
    ensures Closed(nodes', nextId + 1)
  {
  }

  /** A new node `id` linked in after position `k` extends the chain there. */
  lemma {:induction false} ChainInsert<T>(nodes: map<nat, Node<T>>, order: seq<nat>, k: nat, id: nat, value: T, nodes': map<nat, Node<T>>)
    requires k < |order| && Chain(nodes, order) && id !in nodes
    requires nodes' == nodes[id := Node(value, nodes[order[k]].next)][order[k] := nodes[order[k]].(next := Some(id))]
    ensures Chain(nodes', WithAfter(order, k, id))
    ensures Values(nodes', WithAfter(order, k, id)) == Values(nodes, order)[..k + 1] + [value] + Values(nodes, order)[k + 1..]
  {
    var o := WithAfter(order, k, id);
    DistinctWithAfter(order, k, id);
    forall i | 0 <= i < |o|
      ensures o[i] in nodes' && nodes'[o[i]].next == Successor(o, i)
      ensures nodes'[o[i]].value == if i == k + 1 then value else nodes[order[if i <= k then i else i - 1]].value
    {
      ChainInsertAt(nodes, order, k, id, value, nodes', i);
    }
  }

  class LinkedList<T> {
    /** Every node created so far, by identity. */
    var nodes: map<nat, Node<T>>
    var head: Maybe<nat>
    /** The identity the next new node receives. */
    var nextId: nat
    /** The nodes reachable from `head`, front to back. */
    ghost var order: seq<nat>

    /** `head` starts a chain through `order` that ends in `undefined`. */
    ghost predicate Valid()
      reads this
    {
      && Closed(nodes, nextId)
      && Chain(nodes, order)
      && head == (if order == [] then None else Some(order[0]))
    }

    /** The values of the list, front to back. */
    ghost function Contents(): (r: seq<T>)
      reads this
      requires Valid()
    {
      Values(nodes, order)
    }

    constructor ()
      ensures Valid() && Contents() == []
      ensures nodes == map[] && head == None && nextId == 0
    {
      nodes := map[];
      head := None;
      nextId := 0;
      order := [];
    }

    /** `unshift`: a new node holding `value` becomes the head. */
    method Unshift(value: T)
      requires Valid()
      modifies this
      ensures Valid() && Contents() == [value] + old(Contents())
      ensures nodes == old(nodes)[old(nextId) := Node(value, old(head))]
      ensures head == Some(old(nextId)) && nextId == old(nextId) + 1
      ensures order == [old(nextId)] + old(order)
    {
      var id := nextId;
      ghost var o := order;
      ghost var n := nodes;
      nodes := nodes[id := Node(value, head)];
      ChainCons(n, o, id, value, nodes);
      head := Some(id);
      nextId := id + 1;
      order := [id] + order;
    }

    /**
     * `shift`: unlinks the head and returns its value; `None` (the source
     * throws) on an empty list.
     */
    method Shift() returns (r: Maybe<T>)
      requires Valid()
      modifies this
      ensures Valid() && nodes == old(nodes) && nextId == old(nextId)
      ensures r.None? <==> old(Contents()) == []
      ensures r.None? ==> head == old(head) && order == old(order)
      ensures r.Some? ==> r.value == old(Contents())[0] && Contents() == old(Contents())[1..]
      ensures r.Some? ==> head == old(nodes[head.value].next) && order == old(order)[1..]
    {
      if head.None? {
        return None;
      }
      var h := head.value;
      ghost var o := order;
      head := nodes[h].next;
      order := order[1..];
      forall i | 0 <= i < |order|
        ensures order[i] == o[i + 1] && Successor(order, i) == Successor(o, i + 1)
      {
      }
      assert Distinct(order) by {
        forall i, j | 0 <= i < j < |order|
          ensures order[i] != order[j]
        {
          assert order[i] == o[i + 1] && order[j] == o[j + 1];
        }
      }
      assert Values(nodes, order) == Values(nodes, o)[1..];
      return Some(nodes[h].value);
    }

    /** `clear`: the list becomes empty; its former nodes keep their links. */
    method Clear()
      requires Valid()
      modifies this
      ensures Valid() && Contents() == []
      ensures nodes == old(nodes) && nextId == old(nextId) && head == None
    {
      head := None;
      order := [];
    }

    /** `isEmpty`: there is no head exactly when the list holds no values. */
    function IsEmpty(): (r: bool)
      reads this
      requires Valid()
      ensures r <==> Contents() == []
    {
      head.None?
    }

    /** `array`: the values met following `next` from the head. */
    method Array() returns (values: seq<T>)
      requires Valid()
      ensures values == Contents()
    {
      values := [];
      var node := head;
      ghost var k := 0;
      while node.Some?
        invariant 0 <= k <= |order|
        invariant node == (if k < |order| then Some(order[k]) else None)
        invariant values == Contents()[..k]
        decreases |order| - k
      {
        assert Contents()[..k + 1] == Contents()[..k] + [nodes[order[k]].value];
        values := values + [nodes[node.value].value];
        node := nodes[node.value].next;
        k := k + 1;
      }
    }

    /** Links a new node holding `value` in right after node `c`, on the list or not. */
    method LinkAfter(c: nat, value: T) returns (id: nat)
      requires Valid() && c in nodes
      modifies this
      ensures Valid() && id == old(nextId) && nextId == id + 1 && head == old(head)
      ensures nodes == old(nodes)[id := Node(value, old(nodes)[c].next)][c := old(nodes)[c].(next := Some(id))]
      ensures c in old(order) ==>
        var k := IndexOf(old(order), c);
        && order == WithAfter(old(order), k, id)
        && Contents() == old(Contents()[..k + 1]) + [value] + old(Contents()[k + 1..])
      ensures c !in old(order) ==> order == old(order) && Contents() == old(Contents())
    {
      id := nextId;
      ghost var o := order;
      ghost var n := nodes;
      nodes := nodes[id := Node(value, nodes[c].next)][c := nodes[c].(next := Some(id))];
      ClosedInsert(n, id, c, id, value, nodes);
      nextId := id + 1;
      if c in o {
        ChainInsert(n, o, IndexOf(o, c), id, value, nodes);
        order := WithAfter(o, IndexOf(o, c), id);
      } else {
        assert id !in o;
        ChainFrame(n, o, nodes);
      }
    }

    /** `iter`: an iterator that has not yet yielded anything. */
    method Iter() returns (it: LinkedListIterator<T>)
      requires Valid()
      ensures fresh(it) && it.list == this && it.Valid()
      ensures !it.canOperate && it.OnList() && it.NextIndex() == 0
    {
      it := new LinkedListIterator(this);
    }
  }

  class LinkedListIterator<T> {
    const list: LinkedList<T>
    /** `canOperateOnCurrentElement`. */
    var canOperate: bool
    /** `previousNode`. */
    var previous: Maybe<nat>
    /** `currentNode`. */
    var current: Maybe<nat>

    /**
     * The states the iterator's own operations reach: before the first
     * `next()` the current node is the head; a previous node on the list
     * links to the current node, or, once the current node has been removed,
     * to the node the current node links to; without a previous node a
     * current node on the list is the head.
     */
    ghost predicate Valid()
      reads this, list
    {
      && list.Valid()
      && (current.Some? ==> current.value in list.nodes)
      && (previous.Some? ==> previous.value in list.nodes)
      && (!canOperate ==> previous.None? && current == list.head)
      && (canOperate ==> current.Some?)
      && (canOperate && previous.None? && current.value in list.order ==> list.head == current)
      && (canOperate && previous.Some? && previous.value in list.order ==>
            list.nodes[previous.value].next
              == if current.value in list.order then current else list.nodes[current.value].next)
    }

    /** The current node is on the list, or `next()` has not been called yet. */
    ghost predicate OnList()
      reads this, list
      requires Valid()
    {
      !canOperate || current.value in list.order
    }

    /** On the list, the position of the value the next `next()` yields. */
    ghost function NextIndex(): (i: nat)
      reads this, list
      requires Valid() && OnList()
      ensures i <= |list.order|
    {
      if !canOperate then 0 else IndexOf(list.order, current.value) + 1
    }

    constructor (list: LinkedList<T>)
      requires list.Valid()
      ensures this.list == list && Valid()
      ensures !canOperate && previous == None && current == list.head
    {
      this.list := list;
      canOperate := false;
      previous := None;
      current := list.head;
    }

    /** `done`: on the list, exactly when every value has been yielded. */
    function Done(): (r: bool)
      reads this, list
      requires Valid()
      ensures OnList() ==> (r <==> NextIndex() == |list.order|)
    {
      if canOperate then list.nodes[current.value].next.None? else current.None?
    }

    /**
     * `next`: the current node's value the first time, and afterwards the
     * value of the node the current node links to, which becomes current;
     * `None` (`done: true`) when there is none.
     */
    method Next() returns (r: Maybe<T>)
      requires Valid()
      modifies this
      ensures Valid()
      ensures r.None? <==> old(Done())
      ensures r.None? ==> canOperate == old(canOperate) && previous == old(previous) && current == old(current)
      ensures r.Some? && !old(canOperate) ==> previous == old(previous) && current == old(current)
      ensures r.Some? && old(canOperate) ==> previous == old(current) && current == old(list.nodes[current.value].next)
      ensures r.Some? ==> canOperate && r.value == list.nodes[current.value].value
      ensures old(OnList()) ==> OnList()
      ensures old(OnList()) && r.Some? ==>
        NextIndex() == old(NextIndex()) + 1 && r.value == list.Contents()[old(NextIndex())]
    {
      if !canOperate {
        if current.None? {
          return None;
        }
        canOperate := true;
        IndexOfDistinct(list.order, 0);
        return Some(list.nodes[current.value].value);
      }
      var nextNode := list.nodes[current.value].next;
      if nextNode.None? {
        return None;
      }
      if current.value in list.order {
        var k := IndexOf(list.order, current.value);
        IndexOfDistinct(list.order, k + 1);
      }
      previous := current;
      current := nextNode;
      return Some(list.nodes[nextNode.value].value);
    }

    /**
     * `skip(n)`: `next()` `n` times; `thrown` when the iterator is done before
     * that, having advanced to the end.
     */
    method Skip(n: nat) returns (thrown: bool)
      requires Valid()
      modifies this
      ensures Valid()
      ensures old(OnList()) ==> OnList()
      ensures old(OnList()) ==> (thrown <==> old(NextIndex()) + n > |list.order|)
      ensures old(OnList()) && !thrown ==> NextIndex() == old(NextIndex()) + n
      ensures old(OnList()) && thrown ==> NextIndex() == |list.order|
    {
      var i := 0;
      while i < n
        invariant Valid() && i <= n
        invariant old(OnList()) ==> OnList() && NextIndex() == old(NextIndex()) + i
        decreases n - i
      {
        if Done() {
          return true;
        }
        var _ := Next();
        i := i + 1;
      }
      return false;
    }

    /**
     * `remove`: `thrown` before the first `next()`, or when the list's own
     * `shift` throws. With a previous node, that node is linked past the
     * current one; without, the list's head is shifted off. The current node
     * keeps its link, so the following `next()` yields what it would have.
     */
    method Remove() returns (thrown: bool)
      requires Valid()
      modifies list
      ensures Valid() && list.nextId == old(list.nextId)
      ensures thrown <==> !canOperate || (previous.None? && old(list.head).None?)
      ensures thrown ==> list.nodes == old(list.nodes) && list.head == old(list.head) && list.order == old(list.order)
      ensures !thrown && previous.Some? ==> list.head == old(list.head)
      ensures !thrown && previous.Some? ==>
        list.nodes == old(list.nodes[previous.value := list.nodes[previous.value].(next := list.nodes[current.value].next)])
      ensures !thrown && previous.None? ==>
        list.nodes == old(list.nodes) && list.head == old(list.nodes[list.head.value].next)
      // The current node is on the list, and so is the previous one if any: its value goes.
      ensures !thrown && old(current.value in list.order) && (previous.Some? ==> old(previous.value in list.order)) ==>
        var k := old(IndexOf(list.order, current.value));
        && list.Contents() == old(list.Contents()[..k] + list.Contents()[k + 1..])
        && list.nodes[current.value].next == (if k < |list.order| then Some(list.order[k]) else None)
      // The previous node was removed before: the list does not change.
      ensures !thrown && previous.Some? && old(previous.value !in list.order) ==> list.Contents() == old(list.Contents())
      // The current node was removed before: with a previous node nothing
      // changes, and without one the list loses its first value.
      ensures !thrown && old(current.value !in list.order) ==>
        list.Contents() == if previous.Some? then old(list.Contents()) else old(list.Contents()[1..])
    {
      if !canOperate {
        return true;
      }
      if previous.Some? {
        RemoveLinked();
        return false;
      }
      ghost var c := current.value;
      ghost var order := list.order;
      var r := list.Shift();
      if r.Some? && c in order {
        IndexOfDistinct(order, 0);
        assert list.order == Without(order, 0);
      }
      return r.None?;
    }

    /** The branch of `remove` with a previous node, which it links past the current one. */
    method RemoveLinked()
      requires Valid() && canOperate && previous.Some?
      modifies list
      ensures Valid() && list.nextId == old(list.nextId) && list.head == old(list.head)
      ensures list.nodes == old(list.nodes[previous.value := list.nodes[previous.value].(next := list.nodes[current.value].next)])
      ensures old(current.value in list.order && previous.value in list.order) ==>
        var k := old(IndexOf(list.order, current.value));
        && list.Contents() == old(list.Contents()[..k] + list.Contents()[k + 1..])
        && list.nodes[current.value].next == (if k < |list.order| then Some(list.order[k]) else None)
      ensures old(current.value !in list.order || previous.value !in list.order) ==> list.Contents() == old(list.Contents())
    {
      var p, c := previous.value, current.value;
      ghost var order := list.order;
      ghost var nodes := list.nodes;
      list.nodes := list.nodes[p := list.nodes[p].(next := list.nodes[c].next)];
      if c in order && p in order {
        var k := IndexOf(order, c);
        var j := IndexOf(order, p);
        assert j + 1 == k by {
          assert nodes[order[j]].next == Successor(order, j);
          IndexOfDistinct(order, j + 1);
        }
        ChainRemove(nodes, order, k, list.nodes);
        list.order := Without(order, k);
        assert list.nodes[c] == nodes[c];
        if k < |list.order| {
          assert list.order[k] == order[k + 1];
        }
      } else if p in order {
        assert list.nodes == nodes;
      } else {
        ChainFrame(nodes, order, list.nodes);
      }
    }

    /**
     * `replace`: `thrown` before the first `next()`; otherwise the current
     * node's value becomes `value`, which shows in the list only while that
     * node is on it.
     */
    method Replace(value: T) returns (thrown: bool)
      requires Valid()
      modifies list
      ensures Valid() && list.head == old(list.head) && list.nextId == old(list.nextId) && list.order == old(list.order)
      ensures thrown <==> !canOperate
      ensures thrown ==> list.nodes == old(list.nodes)
      ensures !thrown ==> list.nodes == old(list.nodes[current.value := list.nodes[current.value].(value := value)])
      ensures !thrown && current.value in list.order ==>
        list.Contents() == old(list.Contents())[IndexOf(list.order, current.value) := value]
      ensures !thrown && current.value !in list.order ==> list.Contents() == old(list.Contents())
    {
      if !canOperate {
        return true;
      }
      var c := current.value;
      ghost var nodes := list.nodes;
      list.nodes := list.nodes[c := list.nodes[c].(value := value)];
      if c in list.order {
        var k := IndexOf(list.order, c);
        forall i | 0 <= i < |list.order|
          ensures list.nodes[list.order[i]].next == nodes[list.order[i]].next
          ensures list.Contents()[i] == old(list.Contents())[k := value][i]
        {
          if i != k {
            assert list.order[i] != c;
          }
        }
      } else {
        ChainFrame(nodes, list.order, list.nodes);
      }
      return false;
    }

    /**
     * `insert`: a new node holding `value` goes right after the current node
     * and becomes current; with no current node (an empty list) it is
     * unshifted. After a removal the current node is off the list, and so is
     * the new one: the list does not change.
     */
    method Insert(value: T)
      requires Valid()
      modifies this, list
      ensures Valid() && canOperate
      ensures old(current).None? ==>
        && list.Contents() == [value] + old(list.Contents())
        && previous == old(previous) && current == list.head && NextIndex() == 1
      ensures old(current).Some? ==> previous == old(current)
      ensures old(current).Some? && old(current.value in list.order) ==>
        var k := old(IndexOf(list.order, current.value));
        && list.Contents() == old(list.Contents()[..k + 1]) + [value] + old(list.Contents()[k + 1..])
        && OnList() && NextIndex() == k + 2
      ensures old(current).Some? && old(current.value !in list.order) ==>
        list.Contents() == old(list.Contents()) && !OnList()
    {
      canOperate := true;
      if current.None? {
        list.Unshift(value);
        current := list.head;
        IndexOfDistinct(list.order, 0);
        return;
      }
      InsertAfterCurrent(value);
    }

    /** The branch of `insert` with a current node. */
    method InsertAfterCurrent(value: T)
      requires list.Valid() && canOperate && current.Some? && current.value in list.nodes
      modifies this, list
      ensures Valid() && canOperate && previous == old(current)
      ensures old(current.value in list.order) ==>
        var k := old(IndexOf(list.order, current.value));
        && list.Contents() == old(list.Contents()[..k + 1]) + [value] + old(list.Contents()[k + 1..])
        && OnList() && NextIndex() == k + 2
      ensures old(current.value !in list.order) ==> list.Contents() == old(list.Contents()) && !OnList()
    {
      var c := current.value;
      ghost var order := list.order;
      var id := list.LinkAfter(c, value);
      previous := current;
      current := Some(id);
      if c in order {
        var k := IndexOf(order, c);
        assert list.order[k + 1] == id;
        IndexOfDistinct(list.order, k + 1);
      }
    }
  }
}
