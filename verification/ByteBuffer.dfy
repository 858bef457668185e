/** The wrapping byte FIFO of pifus, proved to be a bounded queue of end - 1 bytes. */
module ByteBuffer {
  import opened Prelude
  import opened RingBuffer

  function Wrapped(i: nat, end: nat): nat { if i == end then 0 else i }

  /** Bytes written behind `head`, going round at `end`, are queued behind the old contents
      once `head` moves over them. */
  lemma AppendedItems(d: seq<byte>, d': seq<byte>, tail: nat, head: nat, end: nat, s: seq<byte>)
    requires tail < end <= |d| == |d'| && head < end
    requires |Items(d, tail, head, end)| + |s| < end
    requires forall j :: 0 <= j < |s| ==> d'[Slot(head, j, end)] == s[j]
    requires forall k :: 0 <= k < |Items(d, tail, head, end)| ==> d'[Slot(tail, k, end)] == d[Slot(tail, k, end)]
    ensures Items(d', tail, Slot(head, |s|, end), end) == Items(d, tail, head, end) + s
  {
    var q, q' := Items(d, tail, head, end), Items(d', tail, Slot(head, |s|, end), end);
    assert |q'| == |q| + |s|;
    forall k | 0 <= k < |q'| ensures q'[k] == (q + s)[k] {
      ItemAt(d', tail, Slot(head, |s|, end), end, k);
      if k < |q| {
        ItemAt(d, tail, head, end, k);
      } else {
        assert Slot(tail, k, end) == Slot(head, k - |q|, end);
      }
    }
  }

  /** The copy of add, in one piece or in two. */
  lemma WrittenBehind(d: seq<byte>, d': seq<byte>, tail: nat, head: nat, end: nat, s: seq<byte>)
    requires tail < end <= |d| && head < end && |Items(d, tail, head, end)| + |s| < end
    requires if head + |s| < end then d' == d[..head] + s + d[head + |s|..]
             else d' == s[end - head..] + d[head + |s| - end..head] + s[..end - head] + d[end..]
    ensures Items(d', tail, Slot(head, |s|, end), end) == Items(d, tail, head, end) + s
  {
    hide Items;
    forall k | 0 <= k < |Items(d, tail, head, end)|
      ensures d'[Slot(tail, k, end)] == d[Slot(tail, k, end)]
    {
      CursorMeetsHead(d, tail, head, end, |Items(d, tail, head, end)|);
      ItemAt(d, tail, head, end, k);
    }
    AppendedItems(d, d', tail, head, end, s);
  }

  /** A run of items, cut where it goes round. */
  lemma ItemsPrefix(d: seq<byte>, tail: nat, head: nat, end: nat, n: nat)
    requires tail < end <= |d| && head < end && n <= |Items(d, tail, head, end)|
    ensures Items(d, tail, head, end)[..n] == if tail + n <= end then d[tail..tail + n] else d[tail..end] + d[..tail + n - end]
    ensures Items(d, Slot(tail, n, end), head, end) == Items(d, tail, head, end)[n..]
  {
  }

  lemma SpliceIs(d: seq<byte>, k: nat, s: seq<byte>)
    requires k + |s| <= |d|
    ensures Splice(d, k, s) == d[..k] + s + d[k + |s|..]
  {
  }

  lemma SpliceRound(d: seq<byte>, head: nat, end: nat, s: seq<byte>)
    requires head < end <= |d| && end - head <= |s| <= end
    ensures var e := end - head;
      Splice(Splice(d, head, s[..e]), 0, s[e..]) == s[e..] + d[|s| - e..head] + s[..e] + d[end..]
  {
  }

  lemma SpliceTwice(o: seq<byte>, a: seq<byte>, b: seq<byte>)
    requires |a| + |b| <= |o|
    ensures Splice(Splice(o, 0, a), |a|, b) == a + b + o[|a| + |b|..]
    ensures a == [] ==> Splice(o, 0, a) == o
  {
  }

  /** A cursor ahead of `head` meets `tail` when the buffer would be full. */
  lemma AddMeetsTail(d: seq<byte>, tail: nat, head: nat, end: nat, n: nat)
    requires tail < end <= |d| && head < end && |Items(d, tail, head, end)| + n < end
    ensures |Items(d, tail, head, end)| + n + 1 == end <==> tail == if head + 1 + n < end then head + 1 + n else head + 1 + n - end
  {
  }

  /** Where the cursor of add has ended up, one step too far. */
  lemma LastSlot(head: nat, n: nat, end: nat)
    requires head < end && 0 < n < end
    ensures Slot(head, n, end) == if head + n < end then head + n else head + n - end
  {
  }

  lemma OneAppended(a: seq<byte>, b: seq<byte>, c: seq<byte>)
    ensures a + b + c == a + (b + c)
  {
  }

  lemma OneTaken(a: seq<byte>, q: seq<byte>, n: nat)
    requires n <= |q|
    ensures a + q == a + q[..n] + q[n..]
  {
  }

  class Buffer {
    var head: nat
    const end: nat
    var tail: nat
    const data: array<byte>
    /** All bytes that Add has accepted, and all that Pop has handed out. */
    ghost var accepted: seq<byte>
    ghost var popped: seq<byte>

    ghost predicate Shape()
      reads this
    {
      0 < end <= data.Length && end <= 0xFFFF && head < end && tail < end
    }

    ghost function Contents(): (q: seq<byte>)
      reads this, data
      requires Shape()
      ensures |q| < end
    {
      CursorMeetsHead(data[..], tail, head, end, 0);
      Items(data[..], tail, head, end)
    }

    /** The bytes accepted are those handed out and, behind them, those in the buffer: none is lost, repeated or moved. */
    ghost predicate Valid()
      reads this, data
    {
      Shape() && accepted == popped + Contents()
    }

    constructor Create(bufferLength: nat)
      requires 0 < bufferLength <= 0xFFFF
      ensures Valid() && Contents() == [] && end == bufferLength && fresh(data) && accepted == popped == []
    {
      tail, end, head := 0, bufferLength, 0;
      accepted, popped := [], [];
      data := new byte[bufferLength];
    }

    /** The copying of add: behind `head`, in one piece or round the end in two. */
    method WriteIn(s: seq<byte>, overstepped: bool)
      requires Shape() && s != [] && |Contents()| + |s| < end
      requires overstepped <==> end <= head + |s|
      modifies data
      ensures Items(data[..], tail, Slot(head, |s|, end), end) == old(Contents()) + s
    {
      hide Items, Splice;
      ghost var d := data[..];
      if overstepped {
        var endCopyLength := end - head;
        SpliceRound(d, head, end, s);
        if 0 < endCopyLength {
          Memcpy(data, head, s[..endCopyLength]);
        }
        Memcpy(data, 0, s[endCopyLength..]);
      } else {
        SpliceIs(d, head, s);
        Memcpy(data, head, s);
      }
      WrittenBehind(old(data[..]), data[..], tail, head, end, s);
    }

    /** The copying of pop: from `tail`, in one piece or round the end in two. */
    method ReadOut(n: nat, overstepped: bool, output: array<byte>)
      requires Shape() && 0 < n <= |Contents()| && n <= output.Length && output != data
      requires overstepped <==> end < tail + n
      modifies output
      ensures output[..] == Contents()[..n] + old(output[n..])
    {
      hide Items, Splice;
      ghost var o, d := output[..], data[..];
      ItemsPrefix(d, tail, head, end, n);
      if overstepped {
        var endCopyLength := end - tail;
        var first, second := data[tail..tail + endCopyLength], data[..n - endCopyLength];
        SpliceTwice(o, first, second);
        if 0 < endCopyLength {
          Memcpy(output, 0, first);
        }
        Memcpy(output, endCopyLength, second);
      } else {
        SpliceIs(o, 0, d[tail..tail + n]);
        Memcpy(output, 0, data[tail..tail + n]);
      }
    }

    /** Append as many of the bytes as fit. */
    method Add(toAdd: seq<byte>) returns (added: nat)
      requires Valid() && |toAdd| <= 0xFFFF
      modifies this`head, this`accepted, data
      ensures Valid() && added <= |toAdd| && accepted == old(accepted) + toAdd[..added]
      ensures added == Min(|toAdd|, end - 1 - |old(Contents())|)
      ensures Contents() == old(Contents()) + toAdd[..added]
    {
      hide Items, Slot;
      added := 0;
      ghost var q := Contents();
      head := Wrapped(head, end);
      assert head == old(head) && Contents() == q;
      var h := head + 1;
      var overstepped := false;
      while added < |toAdd|
        invariant Shape() && Contents() == q && unchanged(data) && head == old(head) && accepted == old(accepted)
        invariant added <= |toAdd| && |q| + added <= end - 1
        invariant h == if overstepped then head + 1 + added - end else head + 1 + added
        invariant if overstepped then 1 <= h else h <= end
        decreases |toAdd| - added
      {
        if h == end {
          h := 0;
          overstepped := true;
        }
        AddMeetsTail(data[..], tail, head, end, added);
        if h == tail {
          if added == 0 {
            return;
          }
          break;
        } else {
          h := h + 1;
          added := added + 1;
        }
      }
      if 0 < added {
        if h == 0 {
          h := end - 1;
          overstepped := false;
        } else {
          h := h - 1;
        }
        WriteIn(toAdd[..added], overstepped);
        LastSlot(head, added, end);
        head := h;
        accepted := accepted + toAdd[..added];
        OneAppended(popped, q, toAdd[..added]);
      }
    }

    /** The first loop of pop: how many bytes there are to take, and where the cursor ends up. */
    method Available(length: nat) returns (n: nat, t: nat, overstepped: bool)
      requires Shape()
      ensures n == Min(length, |Contents()|)
      ensures if overstepped then 1 <= t == tail + n - end else tail + n <= end && (t == tail + n || (t == 0 && tail + n == end))
    {
      hide Items;
      t, overstepped, n := tail, false, 0;
      while n < length
        invariant n <= length && n <= |Contents()|
        invariant if overstepped then 1 <= t == tail + n - end else t == tail + n <= end
        decreases length - n
      {
        PopMeetsHead(data[..], tail, head, end, n);
        if head == t {
          break;
        }
        if t == end {
          t := 0;
          if head == t {
            break;
          }
          overstepped := true;
        }
        t := t + 1;
        n := n + 1;
      }
    }

    /** Take up to `length` bytes out, into `output`. */
    method Pop(length: nat, output: array<byte>) returns (n: nat)
      requires Valid() && length <= 0xFFFF && length <= output.Length && output != data
      modifies this`tail, this`popped, output
      ensures Valid() && n <= length && popped == old(popped) + output[..n]
      ensures n == Min(length, |old(Contents())|)
      ensures output[..] == old(Contents())[..n] + old(output[n..])
      ensures Contents() == old(Contents())[n..]
    {
      hide Items;
      ghost var q := Contents();
      var t, overstepped;
      n, t, overstepped := Available(length);
      if 0 < n {
        ItemsPrefix(data[..], tail, head, end, n);
        ReadOut(n, overstepped, output);
        tail := Wrapped(t, end);
        OneTaken(popped, q, n);
        assert output[..n] == q[..n];
        popped := popped + output[..n];
      }
    }

    method IsEmpty() returns (empty: bool)
      requires Valid()
      ensures empty == (Contents() == [])
    {
      empty := head == tail;
    }
  }

  lemma PopMeetsHead(d: seq<byte>, tail: nat, head: nat, end: nat, n: nat)
    requires tail < end <= |d| && head < end && n <= |Items(d, tail, head, end)|
    ensures n < |Items(d, tail, head, end)| <==>
      head != (if tail + n < end then tail + n else tail + n - end)
  {
  }
}
