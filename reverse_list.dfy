/**
 * `MuProSiCo<T>::reverse_order` (engine.inl): relinks a singly linked chain of
 * `Link` nodes in place so that it runs backwards, returning the new head.
 * The nodes themselves (and their items) are untouched; only `next` changes.
 */
module ReverseList {

  class Link<T> {
    var next: Link?<T>
    const item: T

    constructor (item: T, next: Link?<T>)
      ensures this.item == item && this.next == next
    {
      this.item := item;
      this.next := next;
    }
  }

  /** The nodes of `s`, as a set, for frames. */
  ghost function Footprint<T>(s: seq<Link<T>>): set<Link<T>>
  {
    set n | n in s
  }

  /**
   * `nodes` is exactly the chain reached from `head` by following `next`
   * until NULL: consecutive nodes are linked, the last one ends the chain and
   * no node occurs twice (so the chain is finite and acyclic).
   */
  ghost predicate IsChain<T>(head: Link?<T>, nodes: seq<Link<T>>)
    reads Footprint(nodes)
  {
    && (if |nodes| == 0 then head == null else head == nodes[0])
    && (forall i {:trigger After(nodes, i)} :: 0 <= i < |nodes| ==>
          nodes[i].next == After(nodes, i))
    && (forall i, j :: 0 <= i < j < |nodes| ==> nodes[i] != nodes[j])
  }

  /** The node following position `i` of `s`, or NULL after the last one. */
  function After<T>(s: seq<Link<T>>, i: nat): Link?<T>
  {
    if i + 1 < |s| then s[i + 1] else null
  }

  /** The node preceding position `i` of `s`, or NULL before the first one. */
  function Before<T>(s: seq<Link<T>>, i: nat): Link?<T>
    requires i <= |s|
  {
    if i == 0 then null else s[i - 1]
  }

  /** The reference order: `s` read back to front. */
  function Reversed<T>(s: seq<T>): (r: seq<T>)
  {
    seq(|s|, k requires 0 <= k < |s| => s[|s| - 1 - k])
  }

  /** Reversing twice gives the original order back. */
  lemma ReversedInvolutive<T>(s: seq<T>)
    ensures Reversed(Reversed(s)) == s
  {
    assert forall k :: 0 <= k < |s| ==> Reversed(Reversed(s))[k] == s[k];
  }

  /** Reversal turns a concatenation around: the tail's elements come first. */
  lemma ReversedAppend<T>(a: seq<T>, b: seq<T>)
    ensures Reversed(a + b) == Reversed(b) + Reversed(a)
  {
    assert forall k :: 0 <= k < |a| + |b| ==> Reversed(a + b)[k] == (Reversed(b) + Reversed(a))[k];
  }

  /**
   * Walks the chain once with `left`/`current`/`right`, pointing each node back
   * at its predecessor.  The returned head leads through the same nodes in
   * reverse order, and every other object is left alone.
   */
  method ReverseOrder<T>(head: Link?<T>, ghost nodes: seq<Link<T>>) returns (r: Link?<T>)
    requires IsChain(head, nodes)
    modifies Footprint(nodes)
    ensures IsChain(r, Reversed(nodes))
  {
    var left: Link?<T> := null;
    var current := head;
    ghost var i := 0;
    while current != null
      invariant 0 <= i <= |nodes|
      invariant current == if i < |nodes| then nodes[i] else null
      invariant left == Before(nodes, i)
      invariant forall k {:trigger Before(nodes, k)} :: 0 <= k < i ==> nodes[k].next == Before(nodes, k)
      invariant forall k {:trigger After(nodes, k)} :: i <= k < |nodes| ==>
                  nodes[k].next == After(nodes, k)
      invariant forall p, q :: 0 <= p < q < |nodes| ==> nodes[p] != nodes[q]
      decreases |nodes| - i
    {
      assert forall k :: 0 <= k < |nodes| && k != i ==> nodes[k] != nodes[i];
      label before:
      var right := current.next;
      assert right == After(nodes, i);
      current.next := left;
      assert nodes[i].next == Before(nodes, i);
      assert forall k :: 0 <= k < |nodes| && k != i ==> nodes[k].next == old@before(nodes[k].next);
      left := current;
      current := right;
      i := i + 1;
    }
    r := left;
    BackLinksReversed(r, nodes);
  }

  /**
   * Once every node points at its predecessor (the first at NULL), the last
   * node heads a chain through the same nodes in reverse order.
   */
  lemma BackLinksReversed<T>(r: Link?<T>, nodes: seq<Link<T>>)
    requires r == if |nodes| == 0 then null else nodes[|nodes| - 1]
    requires forall k {:trigger Before(nodes, k)} :: 0 <= k < |nodes| ==> nodes[k].next == Before(nodes, k)
    requires forall p, q :: 0 <= p < q < |nodes| ==> nodes[p] != nodes[q]
    ensures IsChain(r, Reversed(nodes))
  {
    var rev := Reversed(nodes);
    assert |rev| == |nodes|;
    forall k | 0 <= k < |rev|
      ensures rev[k].next == After(rev, k)
    {
      var j := |nodes| - 1 - k;
      assert 0 <= j < |nodes|;
      assert rev[k] == nodes[j];
      assert nodes[j].next == Before(nodes, j);
      if k + 1 < |rev| {
        assert rev[k + 1] == nodes[j - 1];
      }
    }
    forall p, q | 0 <= p < q < |rev|
      ensures rev[p] != rev[q]
    {
      assert rev[p] == nodes[|nodes| - 1 - p] && rev[q] == nodes[|nodes| - 1 - q];
    }
    assert |rev| > 0 ==> rev[0] == nodes[|nodes| - 1];
  }
}
