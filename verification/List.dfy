/** The circular, doubly linked lists of list.h. */
module Lists {

  /** struct list_head */
  class ListHead {
    var next: ListHead
    var prev: ListHead

    /** INIT_LIST_HEAD */
    constructor ()
      ensures Ring([this])
    {
      next, prev := this, this;
    }
  }

  predicate Distinct(s: seq<ListHead>) {
    forall i, j :: 0 <= i < j < |s| ==> s[i] != s[j]
  }

  /** x is linked to y, and back. */
  ghost predicate Link(x: ListHead, y: ListHead)
    reads x, y
  {
    x.next == y && y.prev == x
  }

  /** Each node of s is linked to the one after it. */
  ghost predicate Chain(s: seq<ListHead>)
    reads s
  {
    forall i :: 0 < i < |s| ==> Link(s[i - 1], s[i])
  }

  /** The nodes of c, all different, are linked in this order, and around. */
  ghost predicate Ring(c: seq<ListHead>)
    reads c
  {
    c != [] && Distinct(c) && Chain(c) && Link(c[|c| - 1], c[0])
  }

  /** The node after each is the one whose previous node it is. */
  lemma NextPrev(c: seq<ListHead>, i: nat, j: nat)
    requires Ring(c) && i < |c| && j < |c|
    ensures c[i].next == c[j] <==> c[j].prev == c[i]
    ensures c[i].next.prev == c[i] && c[i].prev.next == c[i]
  {
    Neighbours(c, i);
    Neighbours(c, j);
  }

  lemma Neighbours(c: seq<ListHead>, i: nat)
    requires Ring(c) && i < |c|
    ensures c[i].next == c[if i + 1 < |c| then i + 1 else 0] && c[i].prev == c[if i > 0 then i - 1 else |c| - 1]
    ensures c[i].next.prev == c[i] && c[i].prev.next == c[i]
  {
    assert i > 0 ==> Link(c[i - 1], c[i]);
    assert i + 1 < |c| ==> Link(c[i + 1 - 1], c[i + 1]);
  }

  lemma ChainParts(a: seq<ListHead>, b: seq<ListHead>)
    ensures Chain(a + b) <==> Chain(a) && Chain(b) && (a != [] && b != [] ==> Link(a[|a| - 1], b[0]))
  {
    var s := a + b;
    if Chain(s) {
      forall i | 0 < i < |a| ensures Link(a[i - 1], a[i]) { assert Link(s[i - 1], s[i]); }
      forall i | 0 < i < |b| ensures Link(b[i - 1], b[i]) { assert Link(s[|a| + i - 1], s[|a| + i]); }
      if a != [] && b != [] { assert Link(s[|a| - 1], s[|a|]); }
    }
    if Chain(a) && Chain(b) && (a != [] && b != [] ==> Link(a[|a| - 1], b[0])) {
      forall i | 0 < i < |s| ensures Link(s[i - 1], s[i]) {
        if i < |a| { assert Link(a[i - 1], a[i]); } else if i > |a| { assert Link(b[i - |a| - 1], b[i - |a|]); }
      }
    }
  }

  predicate Apart(a: seq<ListHead>, b: seq<ListHead>) {
    forall i, j :: 0 <= i < |a| && 0 <= j < |b| ==> a[i] != b[j]
  }

  lemma DistinctParts(a: seq<ListHead>, b: seq<ListHead>)
    ensures Distinct(a + b) <==> Distinct(a) && Distinct(b) && Apart(a, b)
  {
    var s := a + b;
    if Distinct(s) {
      forall i, j | 0 <= i < j < |a| ensures a[i] != a[j] { assert s[i] != s[j]; }
      forall i, j | 0 <= i < j < |b| ensures b[i] != b[j] { assert s[|a| + i] != s[|a| + j]; }
      forall i, j | 0 <= i < |a| && 0 <= j < |b| ensures a[i] != b[j] { assert s[i] != s[|a| + j]; }
    }
  }

  /** The first and the last of two parts. */
  lemma Ends(a: seq<ListHead>, b: seq<ListHead>)
    ensures a != [] ==> (a + b)[0] == a[0]
    ensures a == [] && b != [] ==> (a + b)[0] == b[0]
    ensures b != [] ==> (a + b)[|a + b| - 1] == b[|b| - 1]
    ensures b == [] && a != [] ==> (a + b)[|a + b| - 1] == a[|a| - 1]
  {
  }

  /** A ring in two parts. */
  lemma RingParts(a: seq<ListHead>, b: seq<ListHead>)
    requires a != [] && b != []
    ensures Ring(a + b) <==> Distinct(a) && Distinct(b) && Apart(a, b) && Chain(a) && Chain(b)
                             && Link(a[|a| - 1], b[0]) && Link(b[|b| - 1], a[0])
  {
    ChainParts(a, b);
    DistinctParts(a, b);
    Ends(a, b);
  }

  /** A chain is still one when no link inside it has changed. */
  twostate lemma ChainKept(s: seq<ListHead>)
    requires old(Chain(s))
    requires forall i :: 0 <= i < |s| - 1 ==> s[i].next == old(s[i].next)
    requires forall i :: 0 < i < |s| ==> s[i].prev == old(s[i].prev)
    ensures Chain(s)
  {
    forall i | 0 < i < |s| ensures Link(s[i - 1], s[i]) { assert old(Link(s[i - 1], s[i])); }
  }

  /** __list_add: between two consecutive nodes, the last of a and the first of b, or of
      a if the ring ends there. */
  method ListAddBetween(node: ListHead, prev: ListHead, next: ListHead, ghost a: seq<ListHead>, ghost b: seq<ListHead>)
    requires Ring(a + b) && a != [] && prev == a[|a| - 1] && next == (b + a)[0]
    requires Apart([node], a) && Apart([node], b)
    modifies node, prev, next
    ensures Ring(a + ([node] + b))
  {
    if b != [] { RingParts(a, b); } else { assert a + b == a; }
    Ends(b, a);
    assert [node][0] == node;
    next.prev := node;
    node.next := next;
    node.prev := prev;
    prev.next := node;
    ChainKept(a);
    if b != [] {
      ChainKept(b);
      ChainParts([node], b);
      DistinctParts([node], b);
    } else {
      assert [node] + b == [node];
    }
    Ends([node], b);
    RingParts(a, [node] + b);
  }

  /** list_add: the new node comes first. */
  method ListAdd(node: ListHead, head: ListHead, ghost c: seq<ListHead>)
    requires Ring(c) && c[0] == head && node !in c
    modifies node, head, head.next
    ensures Ring([head, node] + c[1..])
  {
    assert [head] + c[1..] == c;
    Neighbours(c, 0);
    Ends(c[1..], [head]);
    ListAddBetween(node, head, head.next, [head], c[1..]);
    assert [head] + ([node] + c[1..]) == [head, node] + c[1..];
  }

  /** list_add_tail: the new node comes last. */
  method ListAddTail(node: ListHead, head: ListHead, ghost c: seq<ListHead>)
    requires Ring(c) && c[0] == head && node !in c
    modifies node, head, head.prev
    ensures Ring(c + [node])
  {
    assert c + [] == c && [] + c == c;
    Neighbours(c, 0);
    ListAddBetween(node, head.prev, head, c, []);
    assert c + ([node] + []) == c + [node];
  }

  /** __list_del: what was between two nodes, the last of a and the first of b, or of a
      if the ring ends there, is no longer. */
  method ListDelBetween(prev: ListHead, next: ListHead,
                        ghost a: seq<ListHead>, ghost x: ListHead, ghost b: seq<ListHead>)
    requires Ring(a + ([x] + b)) && a != [] && prev == a[|a| - 1] && next == (b + a)[0]
    modifies prev, next
    ensures Ring(a + b)
    ensures x.next == old(x.next) && x.prev == old(x.prev)
  {
    RingParts(a, [x] + b);
    DistinctParts([x], b);
    ChainParts([x], b);
    Ends([x], b);
    Ends(b, a);
    assert forall i :: 0 <= i < |b| ==> b[i] == ([x] + b)[i + 1];
    next.prev := prev;
    prev.next := next;
    ChainKept(a);
    if b != [] {
      ChainKept(b);
      RingParts(a, b);
    } else {
      assert a + b == a;
    }
  }

  /** list_del: the ring closes where the node was; the node keeps its links. */
  method ListDel(entry: ListHead, ghost a: seq<ListHead>, ghost b: seq<ListHead>)
    requires Ring(a + ([entry] + b)) && a != []
    modifies entry.prev, entry.next
    ensures Ring(a + b)
    ensures entry.next == old(entry.next) && entry.prev == old(entry.prev)
  {
    RingParts(a, [entry] + b);
    Ends([entry], b);
    ChainParts([entry], b);
    ListDelBetween(entry.prev, entry.next, a, entry, b);
  }

  /** list_del_init: the node becomes an empty list. */
  method ListDelInit(entry: ListHead, ghost a: seq<ListHead>, ghost b: seq<ListHead>)
    requires Ring(a + ([entry] + b)) && a != []
    modifies entry, entry.prev, entry.next
    ensures Ring(a + b) && Ring([entry])
  {
    DistinctParts(a, [entry] + b);
    DistinctParts([entry], b);
    assert ([entry] + b)[0] == [entry][0] == entry;
    ListDel(entry, a, b);
    assert entry !in a && entry !in b;
    assert entry !in a + b;
    entry.next := entry;
    entry.prev := entry;
  }

  /** list_empty */
  method ListEmpty(head: ListHead, ghost c: seq<ListHead>) returns (empty: bool)
    requires Ring(c) && c[0] == head
    ensures empty <==> |c| == 1
  {
    Neighbours(c, 0);
    empty := head.next == head;
  }

  lemma ApartTails(list: ListHead, l: seq<ListHead>, head: ListHead, c: seq<ListHead>)
    requires Apart([list] + l, [head] + c)
    ensures Apart(l, c) && list != head
    ensures forall i :: 0 <= i < |l| ==> l[i] != head
    ensures forall j :: 0 <= j < |c| ==> c[j] != list
  {
    var x, y := [list] + l, [head] + c;
    assert x[0] == list && y[0] == head;
    forall i, j | 0 <= i < |l| && 0 <= j < |c| ensures l[i] != c[j] { assert x[i + 1] == l[i] && y[j + 1] == c[j]; }
    forall i | 0 <= i < |l| ensures l[i] != head { assert x[i + 1] == l[i]; }
    forall j | 0 <= j < |c| ensures c[j] != list { assert y[j + 1] == c[j]; }
  }

  /** A chain goes between a head and what follows it. */
  method SpliceBetween(first: ListHead, last: ListHead, head: ListHead, at: ListHead,
                       ghost l: seq<ListHead>, ghost c: seq<ListHead>)
    requires l != [] && first == l[0] && last == l[|l| - 1] && Chain(l) && Distinct(l)
    requires Ring([head] + c) && at == (c + [head])[0]
    requires Apart(l, c) && forall i :: 0 <= i < |l| ==> l[i] != head
    modifies first, last, head, at
    ensures Ring([head] + (l + c))
  {
    if c != [] { RingParts([head], c); } else { assert [head] + c == [head]; }
    Ends(c, [head]);

    first.prev := head;
    head.next := first;

    last.next := at;
    at.prev := last;

    assert [head][0] == head;
    ChainKept(l);
    if c != [] { ChainKept(c); } else { assert l + c == l; }
    ChainParts(l, c);
    DistinctParts(l, c);
    Ends(l, c);
    RingParts([head], l + c);
  }

  /** list_splice: all nodes of a list but its head come first in another; the head of
      the one still points at them. */
  method ListSplice(list: ListHead, head: ListHead, ghost l: seq<ListHead>, ghost c: seq<ListHead>)
    requires Ring([list] + l) && Ring([head] + c) && Apart([list] + l, [head] + c)
    modifies list.next, list.prev, head, head.next
    ensures Ring([head] + (l + c))
    ensures list.next == old(list.next) && list.prev == old(list.prev)
  {
    var first := list.next;
    Neighbours([list] + l, 0);
    Neighbours([head] + c, 0);
    Ends(c, [head]);
    if first != list {
      RingParts([list], l);
      ApartTails(list, l, head, c);
      assert [list][0] == list;
      SpliceBetween(first, list.prev, head, head.next, l, c);
    } else {
      assert l == [] && l + c == c;
    }
  }

  /** list_for_each: every node but the head, in order, once. */
  method ForEach(head: ListHead, ghost c: seq<ListHead>) returns (visited: seq<ListHead>)
    requires Ring(c) && c[0] == head
    ensures visited == c[1..]
  {
    visited := [];
    Neighbours(c, 0);
    var pos := head.next;
    while pos != head
      invariant |visited| < |c| && visited == c[1..|visited| + 1]
      invariant pos == c[if |visited| + 1 < |c| then |visited| + 1 else 0]
      decreases |c| - |visited|
    {
      Neighbours(c, |visited| + 1);
      visited := visited + [pos];
      pos := pos.next;
    }
  }
}
