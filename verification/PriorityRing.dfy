/** Three rings of different priority behind one interface. Peek remembers which ring it
    looked at, so that erase_first removes what was peeked. */
module PriorityRing {
  import opened Prelude
  import opened RingBuffer

  datatype Lane = High | Medium | Low

  /** The queued elements of the three rings, the lane of the last peek, and the ring size. */
  datatype Queues<T> = Queues(high: seq<T>, medium: seq<T>, low: seq<T>, last: Lane, end: nat)
  {
    function Of(lane: Lane): seq<T> {
      match lane case High => high case Medium => medium case Low => low
    }

    function With(lane: Lane, q: seq<T>): (r: Queues<T>)
      ensures r.Of(lane) == q && r.last == last && r.end == end
      ensures forall l :: l != lane ==> r.Of(l) == Of(l)
    {
      match lane
      case High => this.(high := q)
      case Medium => this.(medium := q)
      case Low => this.(low := q)
    }

    predicate Empty() { high == [] && medium == [] && low == [] }

    /** The lane a peek looks at: the highest one that is not empty. */
    function Top(): Lane {
      if high != [] then High else if medium != [] then Medium else Low
    }

    function Put(lane: Lane, el: T): Queues<T> {
      if |Of(lane)| + 1 < end then With(lane, Of(lane) + [el]) else this
    }

    function PutAll(arrivals: seq<(Lane, T)>): Queues<T> {
      if arrivals == [] then this
      else PutAll(arrivals[..|arrivals| - 1]).Put(arrivals[|arrivals| - 1].0, arrivals[|arrivals| - 1].1)
    }

    function Peeked(): Queues<T> { if Empty() then this else this.(last := Top()) }

    function Erased(): Queues<T> {
      if Of(last) == [] then this else With(last, Of(last)[1..])
    }
  }

  lemma {:induction false} PutAllAppends<T>(q: Queues<T>, arrivals: seq<(Lane, T)>, lane: Lane)
    ensures q.Of(lane) <= q.PutAll(arrivals).Of(lane)
    ensures q.PutAll(arrivals).last == q.last
  {
    if arrivals != [] { PutAllAppends(q, arrivals[..|arrivals| - 1], lane); }
  }

  /** The elements that arrive for a lane */
  function For<T>(arrivals: seq<(Lane, T)>, lane: Lane): seq<T> {
    if arrivals == [] then []
    else
      var last := arrivals[|arrivals| - 1];
      For(arrivals[..|arrivals| - 1], lane) + if last.0 == lane then [last.1] else []
  }

  /** As long as there is room, all that arrives is queued behind what is there. */
  lemma {:induction false} ArrivalsAreQueued<T>(q: Queues<T>, arrivals: seq<(Lane, T)>, lane: Lane)
    requires |q.Of(lane)| + |For(arrivals, lane)| < q.end
    ensures q.PutAll(arrivals).Of(lane) == q.Of(lane) + For(arrivals, lane) && q.PutAll(arrivals).end == q.end
  {
    if arrivals != [] { ArrivalsAreQueued(q, arrivals[..|arrivals| - 1], lane); }
  }

  /** Peek looks at one ring after the other, and elements may arrive before the second look (`a`) and before the
      third (`b`). The state in which it ends. */
  function PeekedLate<T>(q: Queues<T>, a: seq<(Lane, T)>, b: seq<(Lane, T)>): Queues<T> {
    if q.high != [] then q.(last := High)
    else
      var q1 := q.PutAll(a);
      if q1.medium != [] then q1.(last := Medium)
      else
        var q2 := q1.PutAll(b);
        if q2.low != [] then q2.(last := Low) else q2
  }

  /** What the last look of a peek saw, if it found something. */
  function Seen<T>(q: Queues<T>, a: seq<(Lane, T)>, b: seq<(Lane, T)>): (r: Option<(Lane, T)>) {
    var p := PeekedLate(q, a, b);
    if q.high != [] then Some((High, q.high[0]))
    else if q.PutAll(a).medium != [] then Some((Medium, p.medium[0]))
    else if p.low != [] then Some((Low, p.low[0]))
    else None
  }

  /** erase_first after a successful peek removes exactly the peeked element, whatever arrived between the looks of the
      peek or after it (`late`); everything else stays queued. The peeked element was the oldest of its lane, and
      every lane of higher priority was empty when the peek looked at it. */
  lemma {:induction false} EraseRemovesThePeeked<T>(q: Queues<T>, a: seq<(Lane, T)>, b: seq<(Lane, T)>, late: seq<(Lane, T)>)
    requires Seen(q, a, b).Some?
    ensures var (lane, el) := Seen(q, a, b).value;
      var before := PeekedLate(q, a, b).PutAll(late);
      && before.last == lane && before.Of(lane) == [el] + before.Erased().Of(lane)
      && (forall l :: l != lane ==> before.Erased().Of(l) == before.Of(l))
      && (lane != High ==> q.high == []) && (lane == Low ==> q.PutAll(a).medium == [])
  {
    var p, lane := PeekedLate(q, a, b), Seen(q, a, b).value.0;
    PutAllAppends(p, late, lane);
    assert p.Of(lane) != [] && p.Of(lane)[0] == Seen(q, a, b).value.1;
  }

  /** A peek that nothing interrupts finds something exactly if anything is queued, in the lane of highest priority. */
  lemma QuietPeek<T>(q: Queues<T>)
    ensures Seen(q, [], []).Some? <==> !q.Empty()
    ensures !q.Empty() ==> PeekedLate(q, [], []) == q.Peeked() && Seen(q, [], []).value == (q.Top(), q.Of(q.Top())[0])
    ensures !q.Empty() ==> match q.Top()
      case High => q.high != []
      case Medium => q.high == [] && q.medium != []
      case Low => q.high == [] && q.medium == [] && q.low != []
  {
  }

  /** No element of the lane satisfies the predicate. */
  ghost predicate NoneIn<T>(q: Queues<T>, satisfies: T -> bool, lane: Lane) {
    forall j :: 0 <= j < |q.Of(lane)| ==> !satisfies(q.Of(lane)[j])
  }

  lemma NoneFound<T>(q: Queues<T>, satisfies: T -> bool, lane: Lane)
    requires forall j :: 0 <= j < |q.Of(lane)| ==> !satisfies(q.Of(lane)[j])
    ensures NoneIn(q, satisfies, lane)
  {
  }

  /** Element k of the lane is the first that satisfies the predicate, and no lane of higher priority has any. */
  ghost predicate FirstIn<T>(q: Queues<T>, satisfies: T -> bool, lane: Lane, k: nat) {
    && k < |q.Of(lane)| && satisfies(q.Of(lane)[k]) && (forall j :: 0 <= j < k ==> !satisfies(q.Of(lane)[j]))
    && (lane.Medium? ==> NoneIn(q, satisfies, High))
    && (lane.Low? ==> NoneIn(q, satisfies, High) && NoneIn(q, satisfies, Medium))
  }

  class PriorityBuffer<T(0)> {
    const high: Ring<T>
    const medium: Ring<T>
    const low: Ring<T>
    /** Which ring the last successful peek looked at; null until then. */
    var lastPeek: Ring?<T>

    ghost predicate Valid()
      reads this, high, medium, low
    {
      && high.Valid() && medium.Valid() && low.Valid()
      && high != medium && medium != low && high != low
      && high.buf != medium.buf && medium.buf != low.buf && high.buf != low.buf
      && high.end == medium.end == low.end
      && (lastPeek != null ==> lastPeek in {high, medium, low})
    }

    /** The state as a value; the lane is only meaningful once something has been peeked. */
    ghost function Model(): Queues<T>
      reads this, high, medium, low, high.buf, medium.buf, low.buf
      requires Valid()
    {
      Queues(high.Contents(), medium.Contents(), low.Contents(),
             if lastPeek == high then High else if lastPeek == medium then Medium else Low, high.end)
    }

    constructor Create(txQueueSize: nat)
      requires 0 < txQueueSize <= 0xFFFF
      ensures Valid() && Model().Empty() && Model().end == txQueueSize && lastPeek == null
      ensures fresh(high) && fresh(medium) && fresh(low)
    {
      high := new Ring<T>.Create(txQueueSize);
      medium := new Ring<T>.Create(txQueueSize);
      low := new Ring<T>.Create(txQueueSize);
      lastPeek := null;
    }

    method Peek(default: T) returns (ok: bool, el: T)
      requires Valid()
      modifies this`lastPeek
      ensures Valid() && ok == !old(Model()).Empty()
      ensures ok ==> Model() == old(Model()).Peeked() && lastPeek != null
      ensures !ok ==> lastPeek == old(lastPeek)
      ensures ok && high.Contents() != [] ==> lastPeek == high && el == high.Contents()[0]
      ensures ok && high.Contents() == [] != medium.Contents() ==> lastPeek == medium && el == medium.Contents()[0]
      ensures ok && high.Contents() == medium.Contents() == [] ==> lastPeek == low && low.Contents() != [] && el == low.Contents()[0]
    {
      var slot;
      el := default;
      ok, slot := high.Peek();
      if ok {
        lastPeek := high;
        el := high.buf[slot];
        return;
      }
      ok, slot := medium.Peek();
      if ok {
        lastPeek := medium;
        el := medium.buf[slot];
        return;
      }
      ok, slot := low.Peek();
      if ok {
        lastPeek := low;
        el := low.buf[slot];
      }
    }

    /** Only after a peek that found something: before, the pointer it follows is unset. */
    method EraseFirst() returns (ok: bool)
      requires Valid() && lastPeek != null
      modifies lastPeek`tail
      ensures Valid() && Model() == old(Model()).Erased()
      ensures ok == (old(lastPeek.Contents()) != [])
      ensures ok ==> lastPeek.Contents() == old(lastPeek.Contents())[1..]
    {
      ok := lastPeek.EraseFirst();
    }

    method Put(lane: Lane, el: T) returns (ok: bool)
      requires Valid()
      modifies high`head, high.buf, medium`head, medium.buf, low`head, low.buf
      ensures Valid() && Model() == old(Model()).Put(lane, el)
      ensures ok == (|old(Model().Of(lane))| + 1 < high.end)
    {
      match lane
      case High => ok := high.Put(el);
      case Medium => ok := medium.Put(el);
      case Low => ok := low.Put(el);
    }

    /** The first satisfying element of the highest lane that has one. */
    method Find(satisfies: T -> bool, default: T) returns (ok: bool, el: T, ghost lane: Lane, ghost k: nat)
      requires Valid()
      ensures ok ==> FirstIn(Model(), satisfies, lane, k) && el == Model().Of(lane)[k]
      ensures !ok ==> forall l :: NoneIn(Model(), satisfies, l)
    {
      hide Items, Slot, NoneIn;
      var slot;
      el := default;
      ghost var q := Model();
      ok, slot, k := high.Find(satisfies);
      lane := High;
      if ok { el := high.buf[slot]; return; }
      assert q.Of(High) == high.Contents();
      NoneFound(q, satisfies, High);
      ok, slot, k := medium.Find(satisfies);
      lane := Medium;
      if ok { el := medium.buf[slot]; return; }
      assert q.Of(Medium) == medium.Contents();
      NoneFound(q, satisfies, Medium);
      ok, slot, k := low.Find(satisfies);
      lane := Low;
      if ok { el := low.buf[slot]; return; }
      assert q.Of(Low) == low.Contents();
      NoneFound(q, satisfies, Low);
      forall l ensures NoneIn(q, satisfies, l) { match l case High => case Medium => case Low => }
    }
  }
}
