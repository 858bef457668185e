/** The ring buffer of pifus as one thread sees it: a bounded queue in an array. */
module RingBuffer {

  /** The place behind slot i. */
  function Next(i: nat, end: nat): nat {
    if i + 1 == end then 0 else i + 1
  }

  /** The slots from `tail` up to, not including, `head`, going round at `end`. */
  function Items<T>(buf: seq<T>, tail: nat, head: nat, end: nat): seq<T>
    requires tail < end <= |buf| && head < end
  {
    if tail <= head then buf[tail..head] else buf[tail..end] + buf[..head]
  }

  /** The k-th slot from `tail`. */
  function Slot(tail: nat, k: nat, end: nat): nat
  {
    if tail + k < end then tail + k else tail + k - end
  }

  lemma ItemAt<T>(buf: seq<T>, tail: nat, head: nat, end: nat, k: nat)
    requires tail < end <= |buf| && head < end && k < |Items(buf, tail, head, end)|
    ensures Slot(tail, k, end) < end && Slot(tail, k, end) != head
    ensures Items(buf, tail, head, end)[k] == buf[Slot(tail, k, end)]
  {
  }

  /** Writing the slot at `head` changes no queued item; moving `head` on then queues it. */
  lemma ItemsAppend<T>(buf: seq<T>, tail: nat, head: nat, end: nat, x: T)
    requires tail < end <= |buf| && head < end && Next(head, end) != tail
    ensures Items(buf[head := x], tail, head, end) == Items(buf, tail, head, end)
    ensures Items(buf[head := x], tail, Next(head, end), end) == Items(buf, tail, head, end) + [x]
    ensures |Items(buf, tail, head, end)| + 2 <= end
  {
  }

  lemma ItemsDrop<T>(buf: seq<T>, tail: nat, head: nat, end: nat)
    requires tail < end <= |buf| && head < end && tail != head
    ensures 0 < |Items(buf, tail, head, end)| && Items(buf, tail, head, end)[0] == buf[tail]
    ensures Items(buf, Next(tail, end), head, end) == Items(buf, tail, head, end)[1..]
  {
  }

  /** A cursor that has moved k slots on from `tail` meets `head` exactly behind the last item. */
  lemma CursorMeetsHead<T>(buf: seq<T>, tail: nat, head: nat, end: nat, k: nat)
    requires tail < end <= |buf| && head < end && k <= |Items(buf, tail, head, end)|
    ensures Slot(tail, k, end) < end && |Items(buf, tail, head, end)| < end
    ensures Slot(tail, k, end) == head <==> k == |Items(buf, tail, head, end)|
    ensures Slot(tail, k, end) != head ==> Next(Slot(tail, k, end), end) == Slot(tail, k + 1, end)
  {
  }

  class Ring<T(0)> {
    const end: nat
    const buf: array<T>
    var head: nat
    var tail: nat

    ghost predicate Valid()
      reads this
    {
      0 < end <= buf.Length && end <= 0xFFFF && head < end && tail < end
    }

    /** The queued elements, oldest first. */
    ghost function Contents(): (q: seq<T>)
      reads this, buf
      requires Valid()
      ensures |q| < end
    {
      CursorMeetsHead(buf[..], tail, head, end, 0);
      Items(buf[..], tail, head, end)
    }

    constructor Create(bufferLength: nat)
      requires 0 < bufferLength <= 0xFFFF
      ensures Valid() && Contents() == [] && end == bufferLength && fresh(buf)
    {
      end := bufferLength;
      buf := new T[bufferLength];
      head, tail := 0, 0;
    }

    /** Queue an element; refused exactly when end - 1 elements are queued. */
    method Put(el: T) returns (ok: bool)
      requires Valid()
      modifies this`head, buf
      ensures Valid()
      ensures ok == (|old(Contents())| + 1 < end)
      ensures Contents() == if ok then old(Contents()) + [el] else old(Contents())
    {
      var h := head + 1;
      if h == end {
        h := 0;
      }
      FullIff(buf[..], tail, head, end);
      if h != tail {
        ItemsAppend(buf[..], tail, head, end, el);
        buf[head] := el;
        head := h;
        ok := true;
      } else {
        ok := false;
      }
    }

    /** Take the oldest element. */
    method Get(default: T) returns (ok: bool, el: T)
      requires Valid()
      modifies this`tail
      ensures Valid()
      ensures ok == (old(Contents()) != [])
      ensures if ok then el == old(Contents())[0] && Contents() == old(Contents())[1..]
              else Contents() == old(Contents())
    {
      var t := tail;
      if head != t {
        ItemsDrop(buf[..], tail, head, end);
        el := buf[t];
        t := t + 1;
        if t == end {
          t := 0;
        }
        tail := t;
        ok := true;
      } else {
        ok, el := false, default;
      }
    }

    /** The slot of the oldest element, which stays queued. */
    method Peek() returns (ok: bool, slot: nat)
      requires Valid()
      ensures ok == (Contents() != [])
      ensures ok ==> slot < end && buf[slot] == Contents()[0]
    {
      slot := tail;
      ok := head != slot;
      if ok { ItemsDrop(buf[..], tail, head, end); }
    }

    method EraseFirst() returns (ok: bool)
      requires Valid()
      modifies this`tail
      ensures Valid()
      ensures ok == (old(Contents()) != [])
      ensures Contents() == if ok then old(Contents())[1..] else old(Contents())
    {
      var t := tail;
      if head != t {
        ItemsDrop(buf[..], tail, head, end);
        t := t + 1;
        if t == end {
          t := 0;
        }
        tail := t;
        ok := true;
      } else {
        ok := false;
      }
    }

    /** The first queued element that satisfies the predicate. */
    method Find(satisfies: T -> bool) returns (ok: bool, slot: nat, ghost k: nat)
      requires Valid()
      ensures ok <==> exists j :: 0 <= j < |Contents()| && satisfies(Contents()[j])
      ensures ok ==> k < |Contents()| && slot < end && buf[slot] == Contents()[k] && satisfies(buf[slot])
      ensures forall j :: 0 <= j < (if ok then k else |Contents()|) ==> !satisfies(Contents()[j])
    {
      slot, k := tail, 0;
      CursorMeetsHead(buf[..], tail, head, end, 0);
      while head != slot
        invariant k <= |Contents()| && slot == Slot(tail, k, end) && slot < end
        invariant head == slot <==> k == |Contents()|
        invariant forall j :: 0 <= j < k ==> !satisfies(Contents()[j])
        decreases |Contents()| - k
      {
        ItemAt(buf[..], tail, head, end, k);
        if satisfies(buf[slot]) {
          return true, slot, k;
        }
        CursorMeetsHead(buf[..], tail, head, end, k);
        CursorMeetsHead(buf[..], tail, head, end, k + 1);
        slot, k := slot + 1, k + 1;
        if slot == end {
          slot := 0;
        }
      }
      ok := false;
    }

    method IsFull() returns (full: bool)
      requires Valid()
      ensures full == (|Contents()| + 1 == end)
    {
      var h := head + 1;
      if h == end {
        h := 0;
      }
      FullIff(buf[..], tail, head, end);
      full := h == tail;
    }

    /** The element with the given number of elements before it. */
    method PeekIndex(index: nat) returns (ok: bool, slot: nat)
      requires Valid() && index <= 0xFFFF
      ensures ok == (index < |Contents()|)
      ensures ok ==> slot < end && buf[slot] == Contents()[index]
    {
      slot := tail;
      var current := 0;
      CursorMeetsHead(buf[..], tail, head, end, 0);
      while head != slot
        invariant current <= |Contents()| && current <= index && slot == Slot(tail, current, end) && slot < end
        invariant head == slot <==> current == |Contents()|
        decreases |Contents()| - current
      {
        if current == index {
          ItemAt(buf[..], tail, head, end, index);
          return true, slot;
        }
        CursorMeetsHead(buf[..], tail, head, end, current);
        CursorMeetsHead(buf[..], tail, head, end, current + 1);
        slot, current := slot + 1, current + 1;
        if slot == end {
          slot := 0;
        }
      }
      ok := false;
    }
  }

  /** The ring is full exactly when the place behind `head` is `tail`. */
  lemma FullIff<T>(buf: seq<T>, tail: nat, head: nat, end: nat)
    requires tail < end <= |buf| && head < end
    ensures Next(head, end) == tail <==> |Items(buf, tail, head, end)| + 1 == end
  {
  }
}
