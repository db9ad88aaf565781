/** The inter-thread queue of util.c, on the circular list.  Every step below is one critical section
    under the queue's mutex; tq_pop is one `Take`, or a `Take` that found nothing, a wait during
    which others may call, and a second `Take`. */
module ThreadQueue {
  import opened Wrappers
  import opened LinkedList

  ghost function DataOf(s: seq<Node>): (d: seq<int>)
    ensures |d| == |s| && forall i | 0 <= i < |s| :: d[i] == s[i].data
  {
    if s == [] then [] else DataOf(s[..|s| - 1]) + [s[|s| - 1].data]
  }

  datatype Call = Push(data: int, memory: bool) | Take | SetFrozen(on: bool)

  datatype State = State(items: seq<int>, frozen: bool)

  /** One critical section, on the abstract state; the methods of Queue are proved to be this. */
  function After(q: State, call: Call): State {
    match call
    case Push(x, memory) => if memory && !q.frozen then q.(items := q.items + [x]) else q
    case Take => if q.items == [] then q else q.(items := q.items[1..])
    case SetFrozen(on) => q.(frozen := on)
  }

  /** What the call gives back: whether a push was accepted, what a take found. */
  function Answer(q: State, call: Call): Option<int> {
    match call
    case Push(x, memory) => if memory && !q.frozen then Some(x) else None
    case Take => if q.items == [] then None else Some(q.items[0])
    case SetFrozen(_) => None
  }

  class Queue {
    const head: Node
    var frozen: bool
    ghost var circle: seq<Node>

    ghost predicate Valid()
      reads this, circle
    {
      Ring(circle) && circle[0] == head
    }

    /** The data queued, first in first. */
    ghost function Items(): seq<int>
      reads this
    {
      if circle == [] then [] else DataOf(circle[1..])
    }

    /** The state the calls work on: the run theorem is about this. */
    ghost function Abs(): State
      reads this
    {
      State(Items(), frozen)
    }

    /** tq_new. */
    constructor ()
      ensures Valid() && Abs() == State([], false) && fresh(circle)
    {
      var h := new Node(0);
      head, frozen, circle := h, false, [h];
    }

    /** tq_freeze and tq_thaw. */
    method SetFrozen(on: bool)
      requires Valid()
      modifies this`frozen
      ensures Valid() && Abs() == After(old(Abs()), Call.SetFrozen(on))
    {
      frozen := on;
    }

    /** tq_push; `memory` is whether calloc succeeds. */
    method Push(data: int, memory: bool) returns (rc: bool)
      requires Valid()
      modifies this`circle, circle
      ensures Valid() && forall n | n in circle :: n in old(circle) || fresh(n)
      ensures Abs() == After(old(Abs()), Call.Push(data, memory))
      ensures rc <==> Answer(old(Abs()), Call.Push(data, memory)).Some?
      ensures rc == (memory && !frozen)
      ensures Items() == if rc then old(Items()) + [data] else old(Items())
    {
      if !memory {
        return false;
      }
      var ent := new Node(data);
      rc := true;
      if !frozen {
        AddLast(ent);
      } else {
        rc := false;
      }
    }

    method AddLast(ent: Node)
      requires Valid() && ent !in circle
      modifies this`circle, circle, ent
      ensures Valid() && Items() == old(Items()) + [ent.data]
      ensures forall n | n in circle :: n in old(circle) || n == ent
    {
      AddedItem(circle, ent);
      ListAddTail(ent, head, circle);
      circle := circle + [ent];
    }

    /** The part of tq_pop under the lock: nothing if the list is empty, else the first entry. */
    method Take() returns (r: Option<int>)
      requires Valid()
      modifies this`circle, circle
      ensures Valid() && forall n | n in circle :: n in old(circle)
      ensures Abs() == After(old(Abs()), Call.Take) && r == Answer(old(Abs()), Call.Take)
      ensures if old(Items()) == [] then r == None && Items() == []
              else r == Some(old(Items())[0]) && Items() == old(Items())[1..]
    {
      var empty := ListEmpty(head, circle);
      if empty {
        return None;
      }
      var ent := ListFirst(head, circle);
      r := Some(ent.data);
      RemoveFirst(ent);
    }

    method RemoveFirst(ent: Node)
      requires Valid() && |circle| > 1 && ent == circle[1]
      modifies this`circle, circle
      ensures Valid() && old(Items()) != [] && Items() == old(Items())[1..]
      ensures forall n | n in circle :: n in old(circle)
    {
      RemovedItem(circle);
      ListDel(ent, circle, 1);
      circle := Without(circle, 1);
    }
  }

  lemma AddedItem(circle: seq<Node>, ent: Node)
    requires |circle| > 0
    ensures DataOf((circle + [ent])[1..]) == DataOf(circle[1..]) + [ent.data]
  {
    assert (circle + [ent])[1..] == circle[1..] + [ent];
  }

  lemma RemovedItem(circle: seq<Node>)
    requires |circle| > 1
    ensures DataOf(Without(circle, 1)[1..]) == DataOf(circle[1..])[1..]
    ensures forall n | n in Without(circle, 1) :: n in circle
  {
    assert Without(circle, 1)[1..] == circle[1..][1..];
  }

  // --------------------------------------------------------------------------- runs of calls

  function Run(q: State, calls: seq<Call>): State
    decreases |calls|
  {
    if calls == [] then q else Run(After(q, calls[0]), calls[1..])
  }

  /** What the accepted pushes put in, and what the takes that found something got out. */
  function Accepted(q: State, calls: seq<Call>): seq<int>
    decreases |calls|
  {
    if calls == [] then [] else Got(q, calls[0], calls[0].Push?) + Accepted(After(q, calls[0]), calls[1..])
  }

  function Taken(q: State, calls: seq<Call>): seq<int>
    decreases |calls|
  {
    if calls == [] then [] else Got(q, calls[0], calls[0].Take?) + Taken(After(q, calls[0]), calls[1..])
  }

  function Got(q: State, call: Call, counts: bool): seq<int> {
    if counts && Answer(q, call).Some? then [Answer(q, call).value] else []
  }

  /** First in, first out, over every run: what was queued and what was accepted, in that order, is
      what was taken followed by what is still queued. */
  lemma {:induction false} Fifo(q: State, calls: seq<Call>)
    ensures q.items + Accepted(q, calls) == Taken(q, calls) + Run(q, calls).items
    decreases |calls|
  {
    if calls != [] {
      var q' := After(q, calls[0]);
      Fifo(q', calls[1..]);
      FifoStep(q, calls[0]);
      var ins, outs := Accepted(q', calls[1..]), Taken(q', calls[1..]);
      var put, got := Got(q, calls[0], calls[0].Push?), Got(q, calls[0], calls[0].Take?);
      calc {
        q.items + (put + ins);
        (q.items + put) + ins;
        (got + q'.items) + ins;
        got + (q'.items + ins);
        got + (outs + Run(q', calls[1..]).items);
        (got + outs) + Run(q', calls[1..]).items;
      }
    }
  }

  lemma FifoStep(q: State, call: Call)
    ensures q.items + Got(q, call, call.Push?) == Got(q, call, call.Take?) + After(q, call).items
  {}

  /** One call on the list itself, answered as `Answer` says. */
  method Perform(q: Queue, call: Call) returns (r: Option<int>)
    requires q.Valid()
    modifies q`frozen, q`circle, q.circle
    ensures q.Valid() && forall k | 0 <= k < |q.circle| :: q.circle[k] in old(q.circle) || fresh(q.circle[k])
    ensures q.Abs() == After(old(q.Abs()), call) && r == Answer(old(q.Abs()), call)
  {
    r := None;
    match call
    case Push(x, memory) =>
      var rc := q.Push(x, memory);
      if rc {
        r := Some(x);
      }
    case Take => r := q.Take();
    case SetFrozen(on) => q.SetFrozen(on);
  }

  /** And so for the linked list: any run of calls on a queue, whatever it held. */
  method PerformAll(q: Queue, calls: seq<Call>) returns (put: seq<int>, got: seq<int>)
    requires q.Valid()
    modifies q`frozen, q`circle, q.circle
    ensures q.Valid() && q.Abs() == Run(old(q.Abs()), calls)
    ensures put == Accepted(old(q.Abs()), calls) && got == Taken(old(q.Abs()), calls)
    ensures old(q.Items()) + put == got + q.Items()
    decreases |calls|
  {
    Fifo(q.Abs(), calls);
    if calls == [] {
      return [], [];
    }
    var r := Perform(q, calls[0]);
    put, got := PerformAll(q, calls[1..]);
    if r.Some? && calls[0].Push? {
      put := [r.value] + put;
    } else if r.Some? && calls[0].Take? {
      got := [r.value] + got;
    }
  }
}
