/** The same ring under concurrency: one producer and one consumer whose loads and
    stores interleave in every possible way (sequentially consistent memory). */
module SpscRing {
  import opened Prelude
  import opened RingBuffer

  /** Where the producer stands inside put. */
  datatype Producer<T> =
    | PIdle
    | PCheck(el: T, next: nat)     // own head loaded, tail about to be loaded
    | PWrite(el: T, next: nat)     // not full, slot about to be written
    | PPublish(el: T, next: nat)   // slot written, head about to be stored

  datatype Call = Get | Peek | Erase

  /** Where the consumer stands inside get, peek, erase_first or find. */
  datatype Consumer<T> =
    | CIdle
    | CCheck(call: Call, t: nat)            // tail loaded, head about to be loaded
    | CRead(t: nat)                         // get: not empty, slot about to be read
    | CRelease(next: nat, el: Option<T>)    // tail about to be stored; el is what get read
    | CFind(cursor: nat, k: nat)            // find: head about to be compared with the cursor
    | CTest(cursor: nat, k: nat)            // find: slot about to be tested

  /** A slot the consumer has a pointer to, how many elements are before it, and what it held. */
  datatype Held<T> = Held(slot: nat, k: nat, el: T)

  /** `sent` and `got` are all elements that were put and taken, `result` is what get has handed out in the last call. */
  datatype State<T> = State(
    end: nat, head: nat, tail: nat, buf: seq<T>,
    p: Producer<T>, c: Consumer<T>, held: Option<Held<T>>,
    sent: seq<T>, got: seq<T>, result: Option<T>)

  /** One load or store, or the start of a call. Every interleaving is a sequence of these. */
  datatype Action<T> = Put(el: T) | Producer | Call(call: Call) | Find | Consumer

  ghost predicate Initial<T>(s: State<T>) {
    && 0 < s.end <= |s.buf| && s.end <= 0xFFFF && s.head == 0 && s.tail == 0
    && s.p.PIdle? && s.c.CIdle? && s.held.None? && s.sent == [] && s.got == []
  }

  function ProducerStep<T>(s: State<T>): State<T> {
    match s.p
    case PIdle => s
    case PCheck(el, next) =>
      if next != s.tail then s.(p := PWrite(el, next)) else s.(p := PIdle)
    case PWrite(el, next) =>
      if s.head < |s.buf| then s.(buf := s.buf[s.head := el], p := PPublish(el, next)) else s
    case PPublish(el, next) =>
      s.(head := next, sent := s.sent + [el], p := PIdle)
  }

  function ConsumerStep<T>(s: State<T>, satisfies: T -> bool): State<T> {
    match s.c
    case CIdle => s
    case CCheck(call, t) =>
      if s.head == t then s.(c := CIdle)
      else (
        match call
        case Get => s.(c := CRead(t))
        case Erase => s.(c := CRelease(Next(t, s.end), None))
        case Peek => if t < |s.buf| then s.(c := CIdle, held := Some(Held(t, 0, s.buf[t]))) else s)
    case CRead(t) =>
      if t < |s.buf| then s.(c := CRelease(Next(t, s.end), Some(s.buf[t])), result := Some(s.buf[t])) else s
    case CRelease(next, el) =>
      if s.tail < |s.buf| then
        s.(tail := next, c := CIdle,
           got := s.got + [if el.Some? then el.value else s.buf[s.tail]],
           held := if s.held.Some? && 0 < s.held.value.k
                   then Some(s.held.value.(k := s.held.value.k - 1)) else None)
      else s
    case CFind(cursor, k) =>
      if s.head == cursor then s.(c := CIdle) else s.(c := CTest(cursor, k))
    case CTest(cursor, k) =>
      if cursor < |s.buf| then
        if satisfies(s.buf[cursor]) then s.(c := CIdle, held := Some(Held(cursor, k, s.buf[cursor])))
        else s.(c := CFind(Next(cursor, s.end), k + 1))
      else s
  }

  function Step<T>(s: State<T>, a: Action<T>, satisfies: T -> bool): State<T> {
    match a
    case Put(el) => if s.p.PIdle? then s.(p := PCheck(el, Next(s.head, s.end))) else s
    case Producer => ProducerStep(s)
    case Call(call) => if s.c.CIdle? then s.(c := CCheck(call, s.tail), result := None) else s
    case Find => if s.c.CIdle? then s.(c := CFind(s.tail, 0)) else s
    case Consumer => ConsumerStep(s, satisfies)
  }

  function Run<T>(s: State<T>, actions: seq<Action<T>>, satisfies: T -> bool): State<T> {
    if actions == [] then s
    else Step(Run(s, actions[..|actions| - 1], satisfies), actions[|actions| - 1], satisfies)
  }

  // ---------- The invariant ----------

  ghost predicate Shape<T>(s: State<T>) {
    0 < s.end <= |s.buf| && s.end <= 0xFFFF && s.head < s.end && s.tail < s.end
  }

  function Queue<T>(s: State<T>): (q: seq<T>)
    requires Shape(s)
    ensures |q| < s.end
  {
    CursorMeetsHead(s.buf, s.tail, s.head, s.end, 0);
    Items(s.buf, s.tail, s.head, s.end)
  }

  /** What the producer knows stays true while the consumer moves. */
  ghost predicate ProducerOk<T>(s: State<T>)
    requires Shape(s)
  {
    match s.p
    case PIdle => true
    case PCheck(el, next) => next == Next(s.head, s.end)
    case PWrite(el, next) => next == Next(s.head, s.end) && next != s.tail
    case PPublish(el, next) => next == Next(s.head, s.end) && next != s.tail && s.buf[s.head] == el
  }

  /** What the consumer knows stays true while the producer moves. */
  ghost predicate ConsumerOk<T>(s: State<T>, satisfies: T -> bool)
    requires Shape(s)
  {
    match s.c
    case CIdle => true
    case CCheck(call, t) => t == s.tail
    case CRead(t) => t == s.tail && s.head != s.tail
    case CRelease(next, el) =>
      next == Next(s.tail, s.end) && s.head != s.tail && (el.Some? ==> el.value == s.buf[s.tail])
    case CFind(cursor, k) =>
      k <= |Queue(s)| && cursor == Slot(s.tail, k, s.end) && NoneBefore(Queue(s), k, satisfies)
    case CTest(cursor, k) =>
      k < |Queue(s)| && cursor == Slot(s.tail, k, s.end) && NoneBefore(Queue(s), k, satisfies)
  }

  ghost predicate NoneBefore<T>(q: seq<T>, k: nat, satisfies: T -> bool) {
    forall j :: 0 <= j < k && j < |q| ==> !satisfies(q[j])
  }

  /** The slot the consumer has a pointer to is queued and still holds what it held. */
  ghost predicate HeldOk<T>(s: State<T>)
    requires Shape(s)
  {
    s.held.Some? ==>
      var h := s.held.value;
      h.k < |Queue(s)| && h.slot == Slot(s.tail, h.k, s.end) && Queue(s)[h.k] == h.el
  }

  ghost predicate Inv<T>(s: State<T>, satisfies: T -> bool) {
    && Shape(s)
    && s.sent == s.got + Queue(s)
    && ProducerOk(s) && ConsumerOk(s, satisfies) && HeldOk(s)
  }

  // ---------- Preservation ----------

  lemma WriteKeepsQueue<T>(s: State<T>, el: T)
    requires Shape(s) && Next(s.head, s.end) != s.tail
    ensures Queue(s.(buf := s.buf[s.head := el])) == Queue(s)
  {
    ItemsAppend(s.buf, s.tail, s.head, s.end, el);
  }

  lemma PublishAppends<T>(s: State<T>)
    requires Shape(s) && Next(s.head, s.end) != s.tail
    ensures Queue(s.(head := Next(s.head, s.end))) == Queue(s) + [s.buf[s.head]]
  {
    ItemsAppend(s.buf, s.tail, s.head, s.end, s.buf[s.head]);
    assert s.buf[s.head := s.buf[s.head]] == s.buf;
  }

  lemma ReleaseDrops<T>(s: State<T>)
    requires Shape(s) && s.head != s.tail
    ensures Queue(s) != [] && Queue(s)[0] == s.buf[s.tail]
    ensures Queue(s.(tail := Next(s.tail, s.end))) == Queue(s)[1..]
  {
    ItemsDrop(s.buf, s.tail, s.head, s.end);
  }

  /** A producer's step is invisible to the queue, or appends the element being put. */
  lemma ProducerStepQueue<T>(s: State<T>, satisfies: T -> bool)
    requires Inv(s, satisfies)
    ensures Shape(ProducerStep(s))
    ensures Queue(ProducerStep(s)) == if s.p.PPublish? then Queue(s) + [s.p.el] else Queue(s)
  {
    match s.p
    case PWrite(el, next) => WriteKeepsQueue(s, el);
    case PPublish(el, next) => PublishAppends(s);
    case _ =>
  }

  lemma ProducerStepInv<T>(s: State<T>, satisfies: T -> bool)
    requires Inv(s, satisfies)
    ensures Inv(ProducerStep(s), satisfies)
  {
    var s' := ProducerStep(s);
    ProducerStepQueue(s, satisfies);
    if s.c.CRelease? || s.c.CRead? { ReleaseDrops(s); ReleaseStays(s, s'); }
    hide Items;
    assert s.p.PPublish? ==> s.got + (Queue(s) + [s.p.el]) == (s.got + Queue(s)) + [s.p.el];
  }

  /** While the consumer is about to release its slot, the producer cannot touch it. */
  lemma ReleaseStays<T>(s: State<T>, s': State<T>)
    requires Shape(s) && s.head != s.tail && ProducerOk(s) && s' == ProducerStep(s)
    ensures s'.head != s'.tail && s'.tail == s.tail && s'.buf[s.tail] == s.buf[s.tail]
  {
  }

  lemma ConsumerStepInv<T>(s: State<T>, satisfies: T -> bool)
    requires Inv(s, satisfies)
    ensures Inv(ConsumerStep(s, satisfies), satisfies)
  {
    hide Items, Slot;
    match s.c
    case CCheck(call, t) =>
      CursorMeetsHead(s.buf, s.tail, s.head, s.end, 0);
      SlotZero(s.tail, s.end);
      if s.head != s.tail { ReleaseDrops(s); }
    case CRelease(next, el) => ReleaseInv(s, satisfies);
    case CFind(cursor, k) =>
      CursorMeetsHead(s.buf, s.tail, s.head, s.end, k);
    case CTest(cursor, k) =>
      ItemAt(s.buf, s.tail, s.head, s.end, k);
      CursorMeetsHead(s.buf, s.tail, s.head, s.end, k);
    case _ =>
  }

  lemma SlotZero(tail: nat, end: nat)
    requires tail < end
    ensures Slot(tail, 0, end) == tail
  {
  }

  lemma ReleaseInv<T>(s: State<T>, satisfies: T -> bool)
    requires Inv(s, satisfies) && s.c.CRelease?
    ensures Inv(ConsumerStep(s, satisfies), satisfies)
  {
    hide Items, Slot, HeldOk, Queue, NoneBefore;
    ReleaseDrops(s);
    var s' := ConsumerStep(s, satisfies);
    SameItems(s', s.(tail := Next(s.tail, s.end)));
    HeldMoves(s, satisfies);
    assert s.got + Queue(s) == (s.got + [Queue(s)[0]]) + Queue(s)[1..];
  }

  lemma SameItems<T>(s: State<T>, s': State<T>)
    requires Shape(s) && s.buf == s'.buf && s.tail == s'.tail && s.head == s'.head && s.end == s'.end
    ensures Shape(s') && Queue(s) == Queue(s')
  {
  }

  /** What the consumer has a pointer to has one element less before it, or is the one that goes. */
  lemma HeldMoves<T>(s: State<T>, satisfies: T -> bool)
    requires Inv(s, satisfies) && s.c.CRelease?
    ensures Shape(ConsumerStep(s, satisfies)) && HeldOk(ConsumerStep(s, satisfies))
  {
    ReleaseDrops(s);
    SameItems(ConsumerStep(s, satisfies), s.(tail := Next(s.tail, s.end)));
    hide Items;
  }

  lemma StepInv<T>(s: State<T>, a: Action<T>, satisfies: T -> bool)
    requires Inv(s, satisfies)
    ensures Inv(Step(s, a, satisfies), satisfies)
  {
    match a
    case Producer => ProducerStepInv(s, satisfies);
    case Consumer => ConsumerStepInv(s, satisfies);
    case Find => CursorMeetsHead(s.buf, s.tail, s.head, s.end, 0);
    case _ =>
  }

  lemma {:induction false} RunInv<T>(s: State<T>, actions: seq<Action<T>>, satisfies: T -> bool)
    requires Initial(s)
    ensures Inv(Run(s, actions, satisfies), satisfies)
  {
    if actions != [] {
      RunInv(s, actions[..|actions| - 1], satisfies);
      StepInv(Run(s, actions[..|actions| - 1], satisfies), actions[|actions| - 1], satisfies);
    }
  }

  // ---------- What every interleaving promises ----------

  /** In every interleaving the elements taken are a prefix of the elements put, in the
      same order, and at most end - 1 are on their way. */
  lemma TakenIsPrefixOfPut<T>(s: State<T>, actions: seq<Action<T>>, satisfies: T -> bool)
    requires Initial(s)
    ensures var r := Run(s, actions, satisfies);
      r.got <= r.sent && |r.sent| - |r.got| < s.end
  {
    RunInv(s, actions, satisfies);
    RunEnd(s, actions, satisfies);
  }

  lemma {:induction false} RunEnd<T>(s: State<T>, actions: seq<Action<T>>, satisfies: T -> bool)
    ensures Run(s, actions, satisfies).end == s.end
  {
    if actions != [] { RunEnd(s, actions[..|actions| - 1], satisfies); }
  }

  /** The consumer is entitled to read slot i now: it has a pointer to it, or is about to. */
  ghost predicate MayRead<T>(s: State<T>, i: nat) {
    || (s.held.Some? && s.held.value.slot == i)
    || (s.c.CRead? && s.c.t == i)
    || (s.c.CTest? && s.c.cursor == i)
  }

  lemma ReadableIsKept<T>(s: State<T>, a: Action<T>, satisfies: T -> bool, i: nat)
    requires Inv(s, satisfies) && MayRead(s, i)
    ensures i < |s.buf| && Step(s, a, satisfies).buf[i] == s.buf[i]
  {
    if s.held.Some? && s.held.value.slot == i { ItemAt(s.buf, s.tail, s.head, s.end, s.held.value.k); }
    if s.c.CTest? && s.c.cursor == i { ItemAt(s.buf, s.tail, s.head, s.end, s.c.k); }
  }

  function Before<T>(actions: seq<Action<T>>): seq<Action<T>>
    requires actions != []
  {
    actions[..|actions| - 1]
  }

  /** The consumer stays entitled to read slot i, up to the last action. */
  ghost predicate Readable<T>(s: State<T>, actions: seq<Action<T>>, satisfies: T -> bool, i: nat) {
    actions == [] || (MayRead(Run(s, Before(actions), satisfies), i) && Readable(s, Before(actions), satisfies, i))
  }

  /** In every interleaving a slot is not written as long as the consumer may read it. */
  lemma NoWriteWhileReadable<T>(s: State<T>, first: seq<Action<T>>, more: seq<Action<T>>, satisfies: T -> bool, i: nat)
    requires Initial(s)
    requires Readable(Run(s, first, satisfies), more, satisfies, i) && MayRead(Run(s, first, satisfies), i)
    ensures var r := Run(s, first, satisfies);
      var r' := Run(r, more, satisfies);
      i < |r.buf| == |r'.buf| && r'.buf[i] == r.buf[i]
  {
    RunInv(s, first, satisfies);
    ReadableIsKept(Run(s, first, satisfies), Put(Run(s, first, satisfies).buf[0]), satisfies, i);
    ReadableRun(Run(s, first, satisfies), more, satisfies, i);
  }

  lemma {:induction false} ReadableRun<T>(s: State<T>, actions: seq<Action<T>>, satisfies: T -> bool, i: nat)
    requires Inv(s, satisfies) && i < |s.buf| && Readable(s, actions, satisfies, i)
    ensures var r := Run(s, actions, satisfies);
      Inv(r, satisfies) && |r.buf| == |s.buf| && r.buf[i] == s.buf[i]
  {
    hide Inv, MayRead;
    if actions != [] {
      ReadableRun(s, Before(actions), satisfies, i);
      var r, a := Run(s, Before(actions), satisfies), actions[|actions| - 1];
      StepInv(r, a, satisfies);
      StepLength(r, a, satisfies);
      ReadableIsKept(r, a, satisfies, i);
    }
  }

  lemma StepLength<T>(s: State<T>, a: Action<T>, satisfies: T -> bool)
    ensures |Step(s, a, satisfies).buf| == |s.buf|
  {
  }

  /** What one step does to the queue, to what was put and taken, and to the call it belongs to. */
  ghost predicate Atomic<T>(s: State<T>, a: Action<T>, s': State<T>)
    requires Shape(s) && Shape(s')
  {
    && (if a.Producer? && s.p.PPublish? then
          Queue(s') == Queue(s) + [s.p.el] && s'.sent == s.sent + [s.p.el] && s'.got == s.got
        else if a.Consumer? && s.c.CRelease? then
          Queue(s) != [] && Queue(s') == Queue(s)[1..] && s'.sent == s.sent && s'.got == s.got + [Queue(s)[0]]
        else
          Queue(s') == Queue(s) && s'.sent == s.sent && s'.got == s.got)
    && (a.Producer? && s.p.PCheck? ==> (s'.p.PIdle? <==> |Queue(s)| + 1 == s.end))
    && (a.Consumer? && s.c.CCheck? && Queue(s) == [] ==> s'.c.CIdle? && s'.held == s.held)
    && (a.Consumer? && s.c.CCheck? && Queue(s) != [] ==>
          if s.c.call.Peek? then s'.held == Some(Held(s.tail, 0, Queue(s)[0])) else s'.c.CRead? || s'.c.CRelease?)
  }

  /** Each call takes effect at one of its steps: put appends at its store of `head`, a
      take removes the oldest element at its store of `tail`, and a refusal happens at a
      moment when the ring really is full or empty. Nothing else changes the queue. */
  lemma CallsAreAtomic<T>(s: State<T>, a: Action<T>, satisfies: T -> bool)
    requires Inv(s, satisfies)
    ensures Shape(s) && Shape(Step(s, a, satisfies)) && Atomic(s, a, Step(s, a, satisfies))
  {
    match a
    case Producer => ProducerAtomic(s, satisfies);
    case Consumer => ConsumerAtomic(s, satisfies);
    case _ => SameItems(s, Step(s, a, satisfies));
  }

  lemma ProducerAtomic<T>(s: State<T>, satisfies: T -> bool)
    requires Inv(s, satisfies)
    ensures Shape(ProducerStep(s)) && Atomic(s, Action<T>.Producer, ProducerStep(s))
  {
    hide Items, Slot, HeldOk, ConsumerOk;
    ProducerStepQueue(s, satisfies);
    FullIff(s.buf, s.tail, s.head, s.end);
  }

  lemma ConsumerAtomic<T>(s: State<T>, satisfies: T -> bool)
    requires Inv(s, satisfies)
    ensures Shape(ConsumerStep(s, satisfies)) && Atomic(s, Action<T>.Consumer, ConsumerStep(s, satisfies))
  {
    CursorMeetsHead(s.buf, s.tail, s.head, s.end, 0);
    if s.head != s.tail { ReleaseDrops(s); }
    var s' := ConsumerStep(s, satisfies);
    if s.c.CRelease? { SameItems(s.(tail := Next(s.tail, s.end)), s'); } else { SameItems(s, s'); }
    hide Items, HeldOk, ProducerOk, Queue;
  }

  /** In every interleaving, find gives the first queued element that satisfies the predicate at the moment it
      returns, or returns when no queued element does, even if puts went on meanwhile. */
  lemma FindIsRight<T>(s: State<T>, actions: seq<Action<T>>, satisfies: T -> bool)
    requires Initial(s)
    ensures var r := Run(s, actions, satisfies);
      Shape(r) && (r.c.CFind? && ConsumerStep(r, satisfies).c.CIdle? ==> forall j :: 0 <= j < |Queue(r)| ==> !satisfies(Queue(r)[j]))
    ensures var r := Run(s, actions, satisfies);
      Shape(r) && (r.c.CTest? && ConsumerStep(r, satisfies).c.CIdle? ==>
        && r.c.k < |Queue(r)| && satisfies(Queue(r)[r.c.k]) && NoneBefore(Queue(r), r.c.k, satisfies)
        && ConsumerStep(r, satisfies).held == Some(Held(r.c.cursor, r.c.k, Queue(r)[r.c.k])))
  {
    RunInv(s, actions, satisfies);
    var r := Run(s, actions, satisfies);
    if r.c.CFind? { CursorMeetsHead(r.buf, r.tail, r.head, r.end, r.c.k); }
    if r.c.CTest? { ItemAt(r.buf, r.tail, r.head, r.end, r.c.k); }
  }

  /** Steps find still needs at most. */
  function FindMeasure<T>(s: State<T>): int {
    match s.c
    case CFind(_, k) => 2 * (s.end - 1 - k) + 1
    case CTest(_, k) => 2 * (s.end - 1 - k)
    case _ => 0
  }

  ghost predicate Finding<T>(s: State<T>) { s.c.CFind? || s.c.CTest? }

  lemma FindAdvances<T>(s: State<T>, a: Action<T>, satisfies: T -> bool)
    requires Inv(s, satisfies) && Finding(s)
    ensures s.c.k < s.end && 0 < FindMeasure(s) < 2 * s.end
    ensures var s' := Step(s, a, satisfies);
      if a.Consumer? then 0 <= FindMeasure(s') < FindMeasure(s) else s'.c == s.c && FindMeasure(s') == FindMeasure(s)
  {
    hide Items, NoneBefore, ProducerOk, HeldOk;
    StepInv(s, a, satisfies);
  }

  /** find has not returned. */
  ghost predicate StaysFinding<T>(s: State<T>, actions: seq<Action<T>>, satisfies: T -> bool) {
    Finding(Run(s, actions, satisfies)) && (actions != [] ==> StaysFinding(s, Before(actions), satisfies))
  }

  function ConsumerSteps<T>(actions: seq<Action<T>>): nat {
    if actions == [] then 0 else ConsumerSteps(Before(actions)) + if actions[|actions| - 1].Consumer? then 1 else 0
  }

  /** In every interleaving find returns within 2 * end - 1 of its own steps, having advanced its cursor at most
      end - 1 times, however many puts go on meanwhile. */
  lemma FindIsBounded<T>(s: State<T>, first: seq<Action<T>>, more: seq<Action<T>>, satisfies: T -> bool)
    requires Initial(s) && StaysFinding(Run(s, first, satisfies), more, satisfies)
    ensures ConsumerSteps(more) + 1 < 2 * s.end && Run(Run(s, first, satisfies), more, satisfies).c.k < s.end
  {
    var r := Run(s, first, satisfies);
    RunInv(s, first, satisfies);
    RunEnd(s, first, satisfies);
    FindingRun(r, more, satisfies);
    RunEnd(r, more, satisfies);
    StillFinding(r, more, satisfies);
    FindAdvances(r, Consumer, satisfies);
    FindAdvances(Run(r, more, satisfies), Consumer, satisfies);
  }

  lemma {:induction false} StillFinding<T>(s: State<T>, actions: seq<Action<T>>, satisfies: T -> bool)
    requires StaysFinding(s, actions, satisfies)
    ensures Finding(s)
  {
    if actions != [] { StillFinding(s, Before(actions), satisfies); }
  }

  lemma {:induction false} FindingRun<T>(s: State<T>, actions: seq<Action<T>>, satisfies: T -> bool)
    requires Inv(s, satisfies) && StaysFinding(s, actions, satisfies)
    ensures var r := Run(s, actions, satisfies);
      Inv(r, satisfies) && ConsumerSteps(actions) + FindMeasure(r) <= FindMeasure(s)
  {
    hide Inv, FindMeasure;
    if actions != [] {
      FindingRun(s, Before(actions), satisfies);
      var r, a := Run(s, Before(actions), satisfies), actions[|actions| - 1];
      StepInv(r, a, satisfies);
      FindAdvances(r, a, satisfies);
    }
  }

  // ---------- Whole calls ----------

  /** The consumer's call is not over at any time. */
  ghost predicate Unfinished<T>(s: State<T>, actions: seq<Action<T>>, satisfies: T -> bool) {
    !Run(s, actions, satisfies).c.CIdle? && (actions != [] ==> Unfinished(s, Before(actions), satisfies))
  }

  /** The state s in the middle of a call that began in state b. */
  ghost predicate InCall<T>(b: State<T>, call: Call, s: State<T>) {
    && s.got == b.got && b.sent <= s.sent && s.held == b.held
    && match s.c
       case CCheck(c, _) => c == call && s.result.None?
       case CRead(_) => call.Get? && s.result.None?
       case CRelease(_, el) => !call.Peek? && s.result == el && (call.Get? <==> el.Some?)
       case _ => false
  }

  /** What a call of get, peek or erase_first has done when it is over: the oldest element of those not taken before was
      taken, or looked at, and get has handed it out; or nothing was queued when it began, and it did nothing. */
  ghost predicate Completed<T>(b: State<T>, call: Call, s: State<T>) {
    || (|b.got| < |s.sent|
        && var x := s.sent[|b.got|];
           match call
           case Get => s.got == b.got + [x] && s.result == Some(x)
           case Erase => s.got == b.got + [x]
           case Peek => s.got == b.got && s.held.Some? && s.held.value.k == 0 && s.held.value.el == x)
    || (|b.sent| == |b.got| && s.got == b.got && s.held == b.held && s.result.None?)
  }

  /** In every interleaving, each call of the consumer, once it is over, has done what it is for. */
  lemma CallCompletes<T>(s: State<T>, first: seq<Action<T>>, call: Call, more: seq<Action<T>>, satisfies: T -> bool)
    requires Initial(s) && Run(s, first, satisfies).c.CIdle?
    requires var b := Step(Run(s, first, satisfies), Call(call), satisfies);
      Unfinished(b, more, satisfies) && Step(Run(b, more, satisfies), Consumer, satisfies).c.CIdle?
    ensures var b := Step(Run(s, first, satisfies), Call(call), satisfies);
      Completed(b, call, Step(Run(b, more, satisfies), Consumer, satisfies))
  {
    RunInv(s, first, satisfies);
    var b := Step(Run(s, first, satisfies), Call(call), satisfies);
    StepInv(Run(s, first, satisfies), Call(call), satisfies);
    CallRuns(b, call, more, satisfies);
    CallReturns(b, call, Run(b, more, satisfies), satisfies);
  }

  lemma {:induction false} CallRuns<T>(b: State<T>, call: Call, actions: seq<Action<T>>, satisfies: T -> bool)
    requires Inv(b, satisfies) && InCall(b, call, b) && Unfinished(b, actions, satisfies)
    ensures var r := Run(b, actions, satisfies); Inv(r, satisfies) && InCall(b, call, r)
  {
    hide Inv, InCall;
    if actions != [] {
      CallRuns(b, call, Before(actions), satisfies);
      var r, a := Run(b, Before(actions), satisfies), actions[|actions| - 1];
      StepInv(r, a, satisfies);
      CallGoesOn(b, call, r, a, satisfies);
    }
  }

  lemma CallGoesOn<T>(b: State<T>, call: Call, s: State<T>, a: Action<T>, satisfies: T -> bool)
    requires InCall(b, call, s) && !Step(s, a, satisfies).c.CIdle?
    ensures InCall(b, call, Step(s, a, satisfies))
  {
  }

  lemma CallReturns<T>(b: State<T>, call: Call, s: State<T>, satisfies: T -> bool)
    requires Inv(s, satisfies) && Shape(b) && b.sent == b.got + Queue(b) && InCall(b, call, s)
    requires Step(s, Consumer, satisfies).c.CIdle?
    ensures Completed(b, call, Step(s, Consumer, satisfies))
  {
    CursorMeetsHead(s.buf, s.tail, s.head, s.end, 0);
    if s.head != s.tail { ReleaseDrops(s); }
  }

  /** The producer's call is not over at any time. */
  ghost predicate Putting<T>(s: State<T>, actions: seq<Action<T>>, satisfies: T -> bool) {
    !Run(s, actions, satisfies).p.PIdle? && (actions != [] ==> Putting(s, Before(actions), satisfies))
  }

  ghost predicate InPut<T>(b: State<T>, el: T, s: State<T>) {
    && s.sent == b.sent && b.got <= s.got
    && match s.p
       case PIdle => false
       case PCheck(e, _) => e == el
       case PWrite(e, _) => e == el
       case PPublish(e, _) => e == el
  }

  /** In every interleaving, put appends its element, or the ring was full when it began. */
  lemma PutCompletes<T>(s: State<T>, first: seq<Action<T>>, el: T, more: seq<Action<T>>, satisfies: T -> bool)
    requires Initial(s) && Run(s, first, satisfies).p.PIdle?
    requires var b := Step(Run(s, first, satisfies), Put(el), satisfies);
      Putting(b, more, satisfies) && Step(Run(b, more, satisfies), Producer, satisfies).p.PIdle?
    ensures var b := Step(Run(s, first, satisfies), Put(el), satisfies);
      var r := Step(Run(b, more, satisfies), Producer, satisfies);
      r.sent == b.sent + [el] || (r.sent == b.sent && |b.sent| - |b.got| + 1 == s.end)
  {
    RunInv(s, first, satisfies);
    RunEnd(s, first, satisfies);
    var b := Step(Run(s, first, satisfies), Put(el), satisfies);
    StepInv(Run(s, first, satisfies), Put(el), satisfies);
    PutRuns(b, el, more, satisfies);
    var r := Run(b, more, satisfies);
    FullIff(r.buf, r.tail, r.head, r.end);
  }

  lemma {:induction false} PutRuns<T>(b: State<T>, el: T, actions: seq<Action<T>>, satisfies: T -> bool)
    requires Inv(b, satisfies) && InPut(b, el, b) && Putting(b, actions, satisfies)
    ensures var r := Run(b, actions, satisfies); Inv(r, satisfies) && InPut(b, el, r) && r.end == b.end
  {
    hide Inv, InPut;
    if actions != [] {
      PutRuns(b, el, Before(actions), satisfies);
      var r, a := Run(b, Before(actions), satisfies), actions[|actions| - 1];
      StepInv(r, a, satisfies);
      PutGoesOn(b, el, r, a, satisfies);
    }
  }

  lemma PutGoesOn<T>(b: State<T>, el: T, s: State<T>, a: Action<T>, satisfies: T -> bool)
    requires InPut(b, el, s) && !Step(s, a, satisfies).p.PIdle?
    ensures InPut(b, el, Step(s, a, satisfies)) && Step(s, a, satisfies).end == s.end
  {
  }

  // ---------- Calls that nothing interrupts ----------

  lemma RunOne<T>(s: State<T>, a: Action<T>, satisfies: T -> bool)
    ensures Run(s, [a], satisfies) == Step(s, a, satisfies)
  {
    assert [a][..0] == [] && Run(s, [], satisfies) == s;
  }

  lemma RunNext<T>(s: State<T>, actions: seq<Action<T>>, a: Action<T>, satisfies: T -> bool)
    ensures Run(s, actions + [a], satisfies) == Step(Run(s, actions, satisfies), a, satisfies)
  {
    assert (actions + [a])[..|actions|] == actions;
  }

  /** put alone appends its element, unless the ring is full. */
  lemma PutAlone<T>(s: State<T>, el: T, satisfies: T -> bool)
    requires Inv(s, satisfies) && s.p.PIdle?
    ensures var r := Run(s, [Put(el)] + [Producer] + [Producer] + [Producer], satisfies);
      r.p.PIdle? && Shape(r) && Queue(r) == if |Queue(s)| + 1 < s.end then Queue(s) + [el] else Queue(s)
  {
    RunOne(s, Put(el), satisfies);
    RunNext(s, [Put(el)], Producer, satisfies);
    RunNext(s, [Put(el)] + [Producer], Producer, satisfies);
    RunNext(s, [Put(el)] + [Producer] + [Producer], Producer, satisfies);
    hide Run, Items, Queue;
    FullIff(s.buf, s.tail, s.head, s.end);
    var s1 := Step(s, Put(el), satisfies);
    var s2 := Step(s1, Producer, satisfies);
    var s3 := Step(s2, Producer, satisfies);
    StepInv(s, Put(el), satisfies);
    StepInv(s1, Producer, satisfies);
    StepInv(s2, Producer, satisfies);
    StepInv(s3, Producer, satisfies);
    CallsAreAtomic(s, Put(el), satisfies);
    CallsAreAtomic(s1, Producer, satisfies);
    CallsAreAtomic(s2, Producer, satisfies);
    CallsAreAtomic(s3, Producer, satisfies);
  }

  /** get alone hands out the oldest element, unless the ring is empty. */
  lemma GetAlone<T>(s: State<T>, satisfies: T -> bool)
    requires Inv(s, satisfies) && s.c.CIdle?
    ensures var r := Run(s, [Action<T>.Call(Get)] + [Consumer] + [Consumer] + [Consumer], satisfies);
      && r.c.CIdle? && Shape(r)
      && (if Queue(s) == [] then Queue(r) == [] && r.result.None? else Queue(r) == Queue(s)[1..] && r.result == Some(Queue(s)[0]))
  {
    var call: Action<T> := Action<T>.Call(Get);
    RunOne(s, call, satisfies);
    RunNext(s, [call], Consumer, satisfies);
    RunNext(s, [call] + [Consumer], Consumer, satisfies);
    RunNext(s, [call] + [Consumer] + [Consumer], Consumer, satisfies);
    hide Run, Items;
    CursorMeetsHead(s.buf, s.tail, s.head, s.end, 0);
    SlotZero(s.tail, s.end);
    if s.head != s.tail { ReleaseDrops(s); }
  }

  /** find, and n steps of the consumer */
  function Finds<T>(n: nat): seq<Action<T>> {
    if n == 0 then [Action<T>.Find] else Finds<T>(n - 1) + [Action<T>.Consumer]
  }

  lemma FindsNext<T>(s: State<T>, n: nat, satisfies: T -> bool)
    ensures Run(s, Finds(n + 1), satisfies) == Step(Run(s, Finds(n), satisfies), Consumer, satisfies)
  {
    RunNext(s, Finds<T>(n), Consumer, satisfies);
  }

  lemma FindBegins<T>(s: State<T>, satisfies: T -> bool)
    requires Inv(s, satisfies) && s.c.CIdle?
    ensures var r := Run(s, Finds(0), satisfies);
      r == s.(c := CFind(s.tail, 0)) && Inv(r, satisfies) && Queue(r) == Queue(s)
  {
    RunOne(s, Action<T>.Find, satisfies);
    StepInv(s, Action<T>.Find, satisfies);
  }

  /** find alone has come to queued element k after testing those before it. */
  lemma {:induction false} FindComesTo<T>(s: State<T>, k: nat, satisfies: T -> bool)
    requires Inv(s, satisfies) && s.c.CIdle? && k <= |Queue(s)| && NoneBefore(Queue(s), k, satisfies)
    ensures var r := Run(s, Finds(2 * k), satisfies);
      r.c.CFind? && r == s.(c := CFind(r.c.cursor, k)) && Inv(r, satisfies) && Shape(r) && Queue(r) == Queue(s)
  {
    hide Run, Finds, Step, Inv, Queue;
    if k == 0 {
      FindBegins(s, satisfies);
    } else {
      FindComesTo(s, k - 1, satisfies);
      FindsNext(s, 2 * k - 2, satisfies);
      FindsNext(s, 2 * k - 1, satisfies);
      TestsNext(Run(s, Finds(2 * k - 2), satisfies), satisfies);
    }
  }

  /** The two steps of find that look at one queued element */
  lemma TestsNext<T>(s: State<T>, satisfies: T -> bool)
    requires Inv(s, satisfies) && s.c.CFind? && Shape(s) && s.c.k < |Queue(s)|
    ensures var s2 := Step(Step(s, Consumer, satisfies), Consumer, satisfies);
      && Inv(s2, satisfies) && Shape(s2) && Queue(s2) == Queue(s)
      && (if satisfies(Queue(s)[s.c.k]) then s2 == s.(c := CIdle, held := Some(Held(s.c.cursor, s.c.k, Queue(s)[s.c.k])))
          else s2.c.CFind? && s2 == s.(c := CFind(s2.c.cursor, s.c.k + 1)))
  {
    hide Inv, Queue;
    FindLooks(s, satisfies);
    StepInv(s, Consumer, satisfies);
    StepInv(Step(s, Consumer, satisfies), Consumer, satisfies);
    SameQueue(s, Step(Step(s, Consumer, satisfies), Consumer, satisfies));
  }

  lemma SameQueue<T>(s: State<T>, s': State<T>)
    requires Shape(s) && s' == s.(c := s'.c, held := s'.held)
    ensures Shape(s') && Queue(s') == Queue(s)
  {
  }

  lemma FindLooks<T>(s: State<T>, satisfies: T -> bool)
    requires Inv(s, satisfies) && s.c.CFind? && s.c.k < |Queue(s)|
    ensures s.head != s.c.cursor && s.c.cursor < |s.buf| && s.buf[s.c.cursor] == Queue(s)[s.c.k]
  {
    CursorMeetsHead(s.buf, s.tail, s.head, s.end, s.c.k);
    ItemAt(s.buf, s.tail, s.head, s.end, s.c.k);
  }

  /** find alone points to the first queued element that satisfies the predicate, if there is one. */
  lemma FindAlone<T>(s: State<T>, k: nat, satisfies: T -> bool)
    requires Inv(s, satisfies) && s.c.CIdle? && k <= |Queue(s)| && NoneBefore(Queue(s), k, satisfies)
    requires k < |Queue(s)| ==> satisfies(Queue(s)[k])
    ensures var r := Run(s, Finds(if k < |Queue(s)| then 2 * k + 2 else 2 * k + 1), satisfies);
      && r.c.CIdle? && r == s.(held := r.held)
      && (if k < |Queue(s)| then r.held.Some? && r.held.value.k == k && r.held.value.el == Queue(s)[k] else r.held == s.held)
  {
    hide Run, Finds, NoneBefore, Items;
    FindComesTo(s, k, satisfies);
    var r := Run(s, Finds(2 * k), satisfies);
    FindsNext(s, 2 * k, satisfies);
    if k < |Queue(s)| {
      FindsNext(s, 2 * k + 1, satisfies);
      TestsNext(r, satisfies);
    } else {
      CursorMeetsHead(r.buf, r.tail, r.head, r.end, k);
    }
  }
}
