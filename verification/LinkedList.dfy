/** The circular doubly linked list of elist.h.

    A list is a circle of nodes with the list head first; the abstract value of a list is the
    sequence of nodes after the head.  Operations name the circle they work on with a ghost
    sequence. */
module LinkedList {

  /** A list_head, together with what the entry around it carries. */
  class Node {
    var next: Node?
    var prev: Node?
    const data: int

    /** INIT_LIST_HEAD on a new entry. */
    constructor (data: int)
      ensures Ring([this]) && this.data == data
    {
      this.data := data;
      next, prev := this, this;
    }
  }

  /** The node after, and the node before, position i of a circle. */
  ghost function Succ(s: seq<Node>, i: nat): Node
    requires i < |s|
  {
    if i + 1 < |s| then s[i + 1] else s[0]
  }

  ghost function Pred(s: seq<Node>, i: nat): Node
    requires i < |s|
  {
    if i > 0 then s[i - 1] else s[|s| - 1]
  }

  ghost predicate Distinct(s: seq<Node>) { forall i, j | 0 <= i < j < |s| :: s[i] != s[j] }

  /** The nodes of s, in order, form a circle in both directions. */
  ghost predicate Ring(s: seq<Node>)
    reads s
  {
    && |s| > 0 && Distinct(s)
    && (forall i {:trigger Succ(s, i)} | 0 <= i < |s| :: s[i].next == Succ(s, i))
    && (forall i {:trigger Pred(s, i)} | 0 <= i < |s| :: s[i].prev == Pred(s, i))
  }

  ghost predicate Apart(s: seq<Node>, t: seq<Node>) { forall i, j | 0 <= i < |s| && 0 <= j < |t| :: s[i] != t[j] }

  /** next and prev undo each other all the way round. */
  lemma NextPrevInverse(s: seq<Node>, i: nat)
    requires Ring(s) && i < |s|
    ensures s[i].next != null && s[i].next.prev == s[i] && s[i].prev != null && s[i].prev.next == s[i]
  {
    assert s[i].next == Succ(s, i) && s[i].prev == Pred(s, i);
    var k := if i + 1 < |s| then i + 1 else 0;
    assert s[k].prev == Pred(s, k);
    var p := if i > 0 then i - 1 else |s| - 1;
    assert s[p].next == Succ(s, p);
  }

  ghost function With(s: seq<Node>, i: nat, nlh: Node): seq<Node>
    requires i < |s|
  {
    s[..i + 1] + [nlh] + s[i + 1..]
  }

  lemma WithAt(s: seq<Node>, i: nat, nlh: Node, k: nat)
    requires i < |s| && k <= |s| && Distinct(s) && nlh !in s
    ensures var u := With(s, i, nlh);
            |u| == |s| + 1 && Distinct(u) &&
            (k <= i ==> u[k] == s[k] && Pred(u, k) == if k > 0 || i < |s| - 1 then Pred(s, k) else nlh) &&
            (k < i ==> Succ(u, k) == Succ(s, k)) &&
            (k == i ==> Succ(u, k) == nlh) &&
            (k == i + 1 ==> u[k] == nlh && Succ(u, k) == Succ(s, i) && Pred(u, k) == s[i]) &&
            (k > i + 1 ==> u[k] == s[k - 1] && Succ(u, k) == Succ(s, k - 1) &&
                           Pred(u, k) == if k == i + 2 then nlh else Pred(s, k - 1))
  {
    var u := With(s, i, nlh);
    forall x, y | 0 <= x < y < |u| ensures u[x] != u[y] {
      var a := if x <= i then x else x - 1;
      var b := if y <= i then y else y - 1;
      assert x != i + 1 ==> u[x] == s[a];
      assert y != i + 1 ==> u[y] == s[b];
    }
  }

  /** __list_add between position i and its successor. */
  method InsertBetween(nlh: Node, prev: Node, next: Node, ghost s: seq<Node>, ghost i: nat)
    requires Ring(s) && i < |s| && prev == s[i] && next == Succ(s, i) && nlh !in s
    modifies nlh, s
    ensures Ring(With(s, i, nlh))
  {
    next.prev := nlh;
    nlh.next := next;
    nlh.prev := prev;
    prev.next := nlh;
    ghost var u := With(s, i, nlh);
    ghost var j := if i + 1 < |s| then i + 1 else 0;
    assert forall k | 0 <= k < |s| && k != i :: s[k].next == Succ(s, k);
    assert forall k | 0 <= k < |s| && k != j :: s[k].prev == Pred(s, k);
    WithAt(s, i, nlh, i);
    forall k | 0 <= k < |u| ensures u[k].next == Succ(u, k) && u[k].prev == Pred(u, k) {
      WithAt(s, i, nlh, k);
    }
  }

  lemma WithFirstOrLast(s: seq<Node>, nlh: Node)
    requires |s| > 0
    ensures With(s, 0, nlh) == [s[0], nlh] + s[1..] && With(s, |s| - 1, nlh) == s + [nlh]
  {}

  /** list_add: right after the head. */
  method ListAdd(nlh: Node, head: Node, ghost s: seq<Node>)
    requires Ring(s) && head == s[0] && nlh !in s
    modifies nlh, s
    ensures Ring([head, nlh] + s[1..])
  {
    WithFirstOrLast(s, nlh);
    assert head.next == Succ(s, 0);
    InsertBetween(nlh, head, head.next, s, 0);
  }

  /** list_add_tail: right before the head, that is, last. */
  method ListAddTail(nlh: Node, head: Node, ghost s: seq<Node>)
    requires Ring(s) && head == s[0] && nlh !in s
    modifies nlh, s
    ensures Ring(s + [nlh])
  {
    WithFirstOrLast(s, nlh);
    assert head.prev == Pred(s, 0);
    InsertBetween(nlh, head.prev, head, s, |s| - 1);
  }

  ghost function Without(s: seq<Node>, i: nat): seq<Node>
    requires i < |s|
  {
    s[..i] + s[i + 1..]
  }

  lemma WithoutAt(s: seq<Node>, i: nat, k: nat)
    requires 0 < i < |s| && k < |s| - 1 && Distinct(s)
    ensures var u := Without(s, i);
            |u| == |s| - 1 && Distinct(u) &&
            (k < i ==> u[k] == s[k]) && (k >= i ==> u[k] == s[k + 1]) &&
            Succ(u, k) == (if k == i - 1 then Succ(s, i) else if k < i then Succ(s, k) else Succ(s, k + 1)) &&
            Pred(u, k) == (if k == i || (k == 0 && i == |s| - 1) then Pred(s, i)
                           else if k < i then Pred(s, k) else Pred(s, k + 1))
  {
    var u := Without(s, i);
    forall x, y | 0 <= x < y < |u| ensures u[x] != u[y] {
      var a := if x < i then x else x + 1;
      var b := if y < i then y else y + 1;
      assert u[x] == s[a] && u[y] == s[b];
    }
  }

  /** __list_del: the neighbours of position i point past it. */
  method Unlink(prev: Node, next: Node, ghost s: seq<Node>, ghost i: nat)
    requires Ring(s) && 0 < i < |s| && prev == Pred(s, i) && next == Succ(s, i)
    modifies s
    ensures Ring(Without(s, i)) && s[i].next == old(s[i].next) && s[i].prev == old(s[i].prev)
  {
    next.prev := prev;
    prev.next := next;
    ghost var u := Without(s, i);
    ghost var j := if i + 1 < |s| then i + 1 else 0;
    assert forall k | 0 <= k < |s| && k != i - 1 :: s[k].next == Succ(s, k);
    assert forall k | 0 <= k < |s| && k != j :: s[k].prev == Pred(s, k);
    WithoutAt(s, i, 0);
    forall k | 0 <= k < |u| ensures u[k].next == Succ(u, k) && u[k].prev == Pred(u, k) {
      WithoutAt(s, i, k);
    }
  }

  /** list_del. */
  method ListDel(entry: Node, ghost s: seq<Node>, ghost i: nat)
    requires Ring(s) && 0 < i < |s| && entry == s[i]
    modifies s
    ensures Ring(Without(s, i)) && entry.next == null && entry.prev == null
  {
    assert entry.prev == Pred(s, i) && entry.next == Succ(s, i);
    Unlink(entry.prev, entry.next, s, i);
    entry.next := null;
    entry.prev := null;
    assert forall k | 0 <= k < |Without(s, i)| :: Without(s, i)[k] != entry;
  }

  /** list_del_init. */
  method ListDelInit(entry: Node, ghost s: seq<Node>, ghost i: nat)
    requires Ring(s) && 0 < i < |s| && entry == s[i]
    modifies s
    ensures Ring(Without(s, i)) && Ring([entry])
  {
    assert entry.prev == Pred(s, i) && entry.next == Succ(s, i);
    Unlink(entry.prev, entry.next, s, i);
    entry.next := entry;
    entry.prev := entry;
    assert forall k | 0 <= k < |Without(s, i)| :: Without(s, i)[k] != entry;
  }

  lemma WithoutNodes(s: seq<Node>, i: nat)
    requires 0 < i < |s| && Distinct(s)
    ensures var u := Without(s, i); u != [] && u[0] == s[0] && s[i] !in u && forall k | 0 <= k < |u| :: u[k] in s
  {
    var u := Without(s, i);
    forall k | 0 <= k < |u| ensures u[k] in s && u[k] != s[i] {
      var a := if k < i then k else k + 1;
      assert u[k] == s[a];
    }
  }

  /** Unlinking leaves another list alone. */
  method UnlinkBeside(entry: Node, ghost s: seq<Node>, ghost i: nat, ghost t: seq<Node>)
    requires Ring(s) && 0 < i < |s| && entry == s[i] && Ring(t) && Apart(s, t)
    modifies s
    ensures Ring(Without(s, i)) && Ring(t)
  {
    assert entry.prev == Pred(s, i) && entry.next == Succ(s, i);
    Unlink(entry.prev, entry.next, s, i);
  }

  lemma MovedApart(s: seq<Node>, i: nat, t: seq<Node>)
    requires 0 < i < |s| && Distinct(s) && Apart(s, t)
    ensures s[i] !in t && s[i] !in Without(s, i) && Apart(Without(s, i), t)
  {
    var u := Without(s, i);
    forall k | 0 <= k < |u| ensures u[k] == s[if k < i then k else k + 1] {}
  }

  /** Adding to a list leaves another alone. */
  method AddBeside(nlh: Node, head: Node, ghost u: seq<Node>, ghost t: seq<Node>)
    requires Ring(u) && Ring(t) && head == t[0] && nlh !in t && nlh !in u && Apart(u, t)
    modifies nlh, t
    ensures Ring(u) && Ring([head, nlh] + t[1..])
  {
    ListAdd(nlh, head, t);
  }

  method AddTailBeside(nlh: Node, head: Node, ghost u: seq<Node>, ghost t: seq<Node>)
    requires Ring(u) && Ring(t) && head == t[0] && nlh !in t && nlh !in u && Apart(u, t)
    modifies nlh, t
    ensures Ring(u) && Ring(t + [nlh])
  {
    ListAddTail(nlh, head, t);
  }

  /** list_move to the front of another list. */
  method ListMove(entry: Node, head: Node, ghost s: seq<Node>, ghost i: nat, ghost t: seq<Node>)
    requires Ring(s) && 0 < i < |s| && entry == s[i] && Ring(t) && head == t[0] && Apart(s, t)
    modifies s, t
    ensures Ring(Without(s, i)) && Ring([head, entry] + t[1..])
  {
    MovedApart(s, i, t);
    UnlinkBeside(entry, s, i, t);
    AddBeside(entry, head, Without(s, i), t);
  }

  /** list_move to the front of the list the entry is in. */
  method ListMoveToFront(entry: Node, head: Node, ghost s: seq<Node>, ghost i: nat)
    requires Ring(s) && 0 < i < |s| && entry == s[i] && head == s[0]
    modifies s
    ensures Ring([head, entry] + Without(s, i)[1..])
  {
    WithoutNodes(s, i);
    assert entry.prev == Pred(s, i) && entry.next == Succ(s, i);
    Unlink(entry.prev, entry.next, s, i);
    ghost var u := Without(s, i);
    AddToFront(entry, head, s, u);
  }

  method AddToFront(entry: Node, head: Node, ghost s: seq<Node>, ghost u: seq<Node>)
    requires Ring(u) && head == u[0] && entry in s && entry !in u && forall k | 0 <= k < |u| :: u[k] in s
    modifies s
    ensures Ring([head, entry] + u[1..])
  {
    ListAdd(entry, head, u);
  }

  /** list_move_tail to the back of another list. */
  method ListMoveTail(entry: Node, head: Node, ghost s: seq<Node>, ghost i: nat, ghost t: seq<Node>)
    requires Ring(s) && 0 < i < |s| && entry == s[i] && Ring(t) && head == t[0] && Apart(s, t)
    modifies s, t
    ensures Ring(Without(s, i)) && Ring(t + [entry])
  {
    MovedApart(s, i, t);
    UnlinkBeside(entry, s, i, t);
    AddTailBeside(entry, head, Without(s, i), t);
  }

  /** list_move_tail to the back of the list the entry is in. */
  method ListMoveToBack(entry: Node, head: Node, ghost s: seq<Node>, ghost i: nat)
    requires Ring(s) && 0 < i < |s| && entry == s[i] && head == s[0]
    modifies s
    ensures Ring(Without(s, i) + [entry])
  {
    WithoutNodes(s, i);
    assert entry.prev == Pred(s, i) && entry.next == Succ(s, i);
    Unlink(entry.prev, entry.next, s, i);
    AddToBack(entry, head, s, Without(s, i));
  }

  method AddToBack(entry: Node, head: Node, ghost s: seq<Node>, ghost u: seq<Node>)
    requires Ring(u) && head == u[0] && entry in s && entry !in u && forall k | 0 <= k < |u| :: u[k] in s
    modifies s
    ensures Ring(u + [entry])
  {
    ListAddTail(entry, head, u);
  }

  /** list_empty. */
  method ListEmpty(head: Node, ghost s: seq<Node>) returns (empty: bool)
    requires Ring(s) && head == s[0]
    ensures empty == (|s| == 1)
  {
    assert head.next == Succ(s, 0);
    empty := head.next == head;
  }

  /** The first entry. */
  method ListFirst(head: Node, ghost s: seq<Node>) returns (first: Node)
    requires Ring(s) && head == s[0] && |s| > 1
    ensures first == s[1]
  {
    assert head.next == Succ(s, 0);
    first := head.next;
  }

  ghost function Spliced(s: seq<Node>, t: seq<Node>): seq<Node>
    requires |s| > 0 && |t| > 0
  {
    [t[0]] + s[1..] + t[1..]
  }

  lemma SplicedAt(s: seq<Node>, t: seq<Node>, k: nat)
    requires |s| > 1 && |t| > 0 && Distinct(s) && Distinct(t) && Apart(s, t) && k < |s| + |t| - 1
    ensures var u := Spliced(s, t);
            |u| == |s| + |t| - 1 && Distinct(u) &&
            (k == 0 ==> u[k] == t[0] && Succ(u, k) == s[1] &&
                        Pred(u, k) == if |t| == 1 then s[|s| - 1] else Pred(t, 0)) &&
            (0 < k < |s| ==> u[k] == s[k] && Succ(u, k) == (if k == |s| - 1 then Succ(t, 0) else Succ(s, k)) &&
                             Pred(u, k) == if k == 1 then t[0] else Pred(s, k)) &&
            (k >= |s| ==> u[k] == t[k - |s| + 1] && Succ(u, k) == Succ(t, k - |s| + 1) &&
                          Pred(u, k) == if k == |s| then s[|s| - 1] else Pred(t, k - |s| + 1))
  {
    var u := Spliced(s, t);
    forall x, y | 0 <= x < y < |u| ensures u[x] != u[y] {
      assert 0 < x < |s| ==> u[x] == s[x];
      assert 0 < y < |s| ==> u[y] == s[y];
      assert x >= |s| ==> u[x] == t[x - |s| + 1];
      assert y >= |s| ==> u[y] == t[y - |s| + 1];
    }
  }

  /** __list_splice: the entries of circle s go right after the head of circle t.  The head of s
      still points at them. */
  method SpliceNonempty(list: Node, head: Node, ghost s: seq<Node>, ghost t: seq<Node>)
    requires Ring(s) && Ring(t) && |s| > 1 && list == s[0] && head == t[0] && Apart(s, t)
    modifies s, t
    ensures Ring(Spliced(s, t)) && list.next == old(list.next) && list.prev == old(list.prev)
  {
    assert list.next == Succ(s, 0) && list.prev == Pred(s, 0) && head.next == Succ(t, 0);
    var first := list.next;
    var last := list.prev;
    var at := head.next;
    first.prev := head;
    head.next := first;
    last.next := at;
    at.prev := last;
    SplicedRing(s, t);
  }

  /** The links as the splice leaves them make one circle. */
  lemma SplicedRing(s: seq<Node>, t: seq<Node>)
    requires |s| > 1 && |t| > 0 && Distinct(s) && Distinct(t) && Apart(s, t)
    requires forall k | 0 < k < |s| :: s[k].next == if k == |s| - 1 then Succ(t, 0) else Succ(s, k)
    requires forall k | 0 < k < |s| :: s[k].prev == if k == 1 then t[0] else Pred(s, k)
    requires forall k | 0 <= k < |t| :: t[k].next == if k == 0 then s[1] else Succ(t, k)
    requires forall k | 0 <= k < |t| :: t[k].prev == if t[k] == Succ(t, 0) then s[|s| - 1] else Pred(t, k)
    ensures Ring(Spliced(s, t))
  {
    var u := Spliced(s, t);
    SplicedAt(s, t, 0);
    forall k | 0 <= k < |u| ensures u[k].next == Succ(u, k) && u[k].prev == Pred(u, k) {
      SplicedAt(s, t, k);
    }
  }

  /** list_splice. */
  method ListSplice(list: Node, head: Node, ghost s: seq<Node>, ghost t: seq<Node>)
    requires Ring(s) && Ring(t) && list == s[0] && head == t[0] && Apart(s, t)
    modifies s, t
    ensures Ring(Spliced(s, t)) && list.next == old(list.next) && list.prev == old(list.prev)
  {
    var empty := ListEmpty(list, s);
    if !empty {
      SpliceNonempty(list, head, s, t);
    } else {
      assert Spliced(s, t) == t;
    }
  }

  lemma HeadLeft(s: seq<Node>, t: seq<Node>)
    requires |s| > 1 && |t| > 0 && Distinct(s) && Apart(s, t)
    ensures s[0] !in Spliced(s, t)
  {
    var u := Spliced(s, t);
    forall k | 0 <= k < |u| ensures u[k] != s[0] {
      assert 0 < k < |s| ==> u[k] == s[k];
      assert k >= |s| ==> u[k] == t[k - |s| + 1];
    }
  }

  /** INIT_LIST_HEAD on a node outside a circle. */
  method InitHead(list: Node, ghost u: seq<Node>)
    requires Ring(u) && list !in u
    modifies list
    ensures Ring(u) && Ring([list])
  {
    list.next := list;
    list.prev := list;
  }

  /** list_splice_init: as list_splice, and the emptied list is a list again. */
  method ListSpliceInit(list: Node, head: Node, ghost s: seq<Node>, ghost t: seq<Node>)
    requires Ring(s) && Ring(t) && list == s[0] && head == t[0] && Apart(s, t)
    modifies s, t
    ensures Ring(Spliced(s, t)) && Ring([list])
  {
    var empty := ListEmpty(list, s);
    if !empty {
      SpliceNonempty(list, head, s, t);
      HeadLeft(s, t);
      InitHead(list, Spliced(s, t));
    } else {
      assert Spliced(s, t) == t;
      assert [list] == s;
    }
  }
}
