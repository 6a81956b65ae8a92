/** `QQueue` of common/qqueue.h: a ring of `max` cells that stores at most `max - 1` items, so that
    `front == rear` can only mean empty. */
module RingQueue {
  import opened Arithmetic

  /** `i % n` for a cursor that has gone round at most once. */
  function Wrap(i: nat, n: nat): (r: nat)
    requires i < 2 * n
    ensures r == if i < n then i else i - n
  {
    if i < n then Quotient(i, n, 0, i); i % n
    else Quotient(i, n, 1, i - n); i % n
  }

  /** The items of a ring, oldest first. */
  function RingItems<T>(cells: seq<T>, front: nat, rear: nat): (items: seq<T>)
    requires front < |cells| && rear < |cells|
    ensures |items| < |cells| && |items| == if front <= rear then rear - front else rear - front + |cells|
  {
    if front <= rear then cells[front..rear] else cells[front..] + cells[..rear]
  }

  lemma RingPush<T>(cells: seq<T>, front: nat, rear: nat, item: T)
    requires front < |cells| && rear < |cells| && Wrap(rear + 1, |cells|) != front
    ensures RingItems(cells[rear := item], front, Wrap(rear + 1, |cells|)) == RingItems(cells, front, rear) + [item]
  {
    var next := Wrap(rear + 1, |cells|);
    if next == 0 {
      assert cells[rear := item][front..] == cells[front..rear] + [item];
    } else {
      assert cells[rear := item][..next] == cells[..rear] + [item];
    }
  }

  lemma RingPop<T>(cells: seq<T>, front: nat, rear: nat)
    requires front < |cells| && rear < |cells| && front != rear
    ensures var items := RingItems(cells, front, rear);
            items != [] && items[0] == cells[front] && RingItems(cells, Wrap(front + 1, |cells|), rear) == items[1..]
  {
  }

  class Queue<T(0)> {
    var cells: array<T>
    var front: nat
    var rear: nat

    ghost predicate Valid()
      reads this
    {
      front < cells.Length && rear < cells.Length
    }

    /** The stored items, oldest first. */
    ghost function Items(): (items: seq<T>)
      requires Valid()
      reads this, cells
      ensures |items| < cells.Length
    {
      RingItems(cells[..], front, rear)
    }

    ghost function Capacity(): nat
      requires Valid()
      reads this
    {
      cells.Length - 1
    }

    /** `init`: a size of zero or less is refused. */
    constructor (size: nat)
      requires size > 0
      ensures Valid() && fresh(cells) && Items() == [] && Capacity() == size - 1
    {
      cells := new T[size];
      front, rear := 0, 0;
    }

    method Size() returns (n: nat)
      requires Valid()
      ensures n == |Items()|
    {
      n := Wrap(rear - front + cells.Length, cells.Length);
    }

    method Full() returns (b: bool)
      requires Valid()
      ensures b <==> |Items()| == Capacity()
    {
      b := Wrap(rear + 1, cells.Length) == front;
    }

    method Empty() returns (b: bool)
      requires Valid()
      ensures b <==> Items() == []
    {
      b := front == rear;
    }

    /** `push_non_blocking`; `push` is the same after it has waited for room. */
    method Push(item: T) returns (r: int)
      requires Valid()
      modifies this, cells
      ensures Valid() && cells == old(cells)
      ensures r == if |old(Items())| == Capacity() then -1 else 0
      ensures Items() == if r == 0 then old(Items()) + [item] else old(Items())
    {
      var full := Full();
      if full { return -1; }
      RingPush(cells[..], front, rear, item);
      cells[rear] := item;
      rear := Wrap(rear + 1, cells.Length);
      return 0;
    }

    /** `pop_non_blocking`; `pop` is the same after it has waited for an item. */
    method Pop(current: T) returns (r: int, item: T)
      requires Valid()
      modifies this
      ensures Valid() && cells == old(cells)
      ensures r == if old(Items()) == [] then -1 else 0
      ensures r == 0 ==> item == old(Items())[0] && Items() == old(Items())[1..]
      ensures r != 0 ==> item == current && Items() == old(Items())
    {
      var empty := Empty();
      if empty { return -1, current; }
      RingPop(cells[..], front, rear);
      item := cells[front];
      front := Wrap(front + 1, cells.Length);
      r := 0;
    }
  }
}
