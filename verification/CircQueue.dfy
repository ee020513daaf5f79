/** The ring buffer behind waiting clients, notifications and pending work (server/src/circ_queue.c). */
module CircQueue {

  datatype Option<+T> = None | Some(value: T)

  /** `size` items of a ring, from position `tail` on. */
  function Window<T>(ring: seq<T>, tail: nat, size: nat): (s: seq<T>)
    requires size <= |ring| && (|ring| > 0 ==> tail < |ring|)
    ensures |s| == size
    ensures forall i :: 0 <= i < size ==> s[i] == ring[Wrap(tail + i, |ring|)]
  {
    seq(size, i requires 0 <= i < size => ring[Wrap(tail + i, |ring|)])
  }

  function Wrap(i: nat, capacity: nat): nat {
    if i < capacity then i else i - capacity
  }

  lemma NextPosition(i: nat, capacity: nat)
    requires i < capacity
    ensures (i + 1) % capacity == Wrap(i + 1, capacity)
  {
    if i + 1 < capacity {
    } else {
      assert (i + 1) % capacity == 0;
    }
  }

  lemma WindowPop<T>(ring: seq<T>, tail: nat, size: nat)
    requires 0 < size <= |ring| && tail < |ring|
    ensures Window(ring, tail, size)[0] == ring[tail]
    ensures Window(ring, Wrap(tail + 1, |ring|), size - 1) == Window(ring, tail, size)[1..]
  {
    var s, t := Window(ring, tail, size)[1..], Window(ring, Wrap(tail + 1, |ring|), size - 1);
    forall i | 0 <= i < size - 1
      ensures s[i] == t[i]
    {
      assert Wrap(Wrap(tail + 1, |ring|) + i, |ring|) == Wrap(tail + (i + 1), |ring|);
    }
  }

  lemma WindowPush<T>(ring: seq<T>, tail: nat, size: nat, item: T)
    requires size < |ring| && tail < |ring|
    ensures Window(ring[Wrap(tail + size, |ring|) := item], tail, size + 1) == Window(ring, tail, size) + [item]
  {
    var s, t := Window(ring[Wrap(tail + size, |ring|) := item], tail, size + 1), Window(ring, tail, size) + [item];
    forall i | 0 <= i < size + 1
      ensures s[i] == t[i]
    {
      assert i < size ==> Wrap(tail + i, |ring|) != Wrap(tail + size, |ring|);
    }
  }

  /** CircQueue_t: items enter at `head` and leave at `tail`. */
  class CircQueue<T(0)> {
    const data: array<T>
    var head: nat
    var tail: nat
    var size: nat
    ghost var items: seq<T>  // what is in the queue, oldest first

    /** createQueue */
    constructor (capacity: nat)
      ensures Valid() && fresh(data) && data.Length == capacity && items == []
    {
      data := new T[capacity];
      head, tail, size := 0, 0, 0;
      items := [];
    }

    ghost predicate Valid()
      reads `head, `tail, `size, `items, data
    {
      && size <= data.Length
      && (data.Length == 0 ==> head == tail == 0)
      && (data.Length > 0 ==> head < data.Length && tail < data.Length && head == Wrap(tail + size, data.Length))
      && items == Window(data[..], tail, size)
    }

    /** tryPop: the oldest item, if there is one. */
    method TryPop() returns (item: Option<T>)
      requires Valid()
      modifies this`tail, this`size, this`items
      ensures Valid()
      ensures item == if old(items) == [] then None else Some(old(items)[0])
      ensures items == if old(items) == [] then [] else old(items)[1..]
    {
      hide Window;
      item := None;
      if size > 0 {
        WindowPop(data[..], tail, size);
        NextPosition(tail, data.Length);
        item := Some(data[tail]);
        tail := (tail + 1) % data.Length;
        size := size - 1;
        items := items[1..];
      }
    }

    /** tryPush: a new youngest item, if there is room. */
    method TryPush(item: T) returns (ok: bool)
      requires Valid()
      modifies this`head, this`size, this`items, data
      ensures Valid()
      ensures ok <==> |old(items)| < data.Length
      ensures items == if ok then old(items) + [item] else old(items)
    {
      hide Window;
      ok := false;
      if size < data.Length {
        WindowPush(data[..], tail, size, item);
        NextPosition(head, data.Length);
        ghost var ring := data[..];
        data[head] := item;
        assert data[..] == ring[head := item];
        head := (head + 1) % data.Length;
        size := size + 1;
        items := items + [item];
        ok := true;
      }
    }
  }
}
