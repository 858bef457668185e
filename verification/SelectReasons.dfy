/** Why a call of lwip_select leaves, and when it sleeps. */
module SelectReasons {
  import opened Select
  import opened SelectProofs
  import opened SelectProgress

  // ---------- No call leaves without a reason ----------

  /** A call that has just begun */
  predicate Begins(call: Call) {
    call.place == FirstScan(0, 0) && !call.signalled && call.sem == 0
  }

  /** A socket the call watches has an event it watches for. */
  ghost predicate SeesEvent(call: Call, socks: seq<Sock>) {
    exists i: nat, k: Kind :: i < call.maxfdp1 && i < |socks| && i in call.Watched(k) && socks[i].Scanned(k)
  }

  /** The call watches something that is no socket. */
  ghost predicate BadDescriptor(call: Call, socks: seq<Sock>) {
    exists i: nat, k: Kind :: |socks| <= i < call.maxfdp1 && i in call.Watched(k)
  }

  /** select_waiting of a socket the call watches cannot be raised any more. */
  ghost predicate CounterFull(call: Call, socks: seq<Sock>) {
    exists i: nat, k: Kind :: i < call.maxfdp1 && i < |socks| && socks[i].waiting == 0xFF && i in call.Watched(k)
  }

  /** Data left over from a receive counts as an event for reading, as a packet does. */
  lemma LeftoverIsSeen(st: State, s: nat, call: Call)
    requires s < |st.socks| && s < call.maxfdp1 && s in call.readset
    ensures SeesEvent(call, Next(st, SetLastdata(s, true)).socks)
  {
    var socks := Next(st, SetLastdata(s, true)).socks;
    assert s in call.Watched(Recv) && socks[s].Scanned(Recv);
  }

  /** When action a is about to happen, the call has something to leave for. */
  ghost predicate Reason(st: State, a: Action, t: nat)
    requires t in st.calls
  {
    var call := st.calls[t];
    || call.noWait || call.signalled || (call.mayTimeOut && a == SelectStep(t, true))
    || SeesEvent(call, st.socks) || BadDescriptor(call, st.socks) || CounterFull(call, st.socks)
  }

  /** At some moment it had. */
  ghost predicate HadReason(st: State, actions: seq<Action>, t: nat) {
    actions != [] &&
    (HadReason(st, Before(actions), t)
     || (t in Run(st, Before(actions)).calls && Reason(Run(st, Before(actions)), actions[|actions| - 1], t)))
  }

  /** The call is still looking for an event, or sleeps. */
  predicate Searching(call: Call) {
    && (call.signalled || call.sem == 0)
    && match call.place
       case FirstScan(_, nready) => nready == 0
       case SecondScan(_, nready) => nready == 0
       case Uncounting(_, _) => false
       case Unlinking => false
       case _ => true
  }

  /** In every interleaving, a call is there as long as it had no reason to leave: no event on a socket it watches, no
      signal, its time is not over, it may wait, its descriptors are sockets, and none of their counters was full. */
  lemma {:induction false} LeavesForAReason(st: State, actions: seq<Action>, t: nat)
    requires t in st.calls && Begins(st.calls[t])
    ensures HadReason(st, actions, t) || (t in Run(st, actions).calls && Searching(Run(st, actions).calls[t]))
  {
    if actions != [] && !HadReason(st, actions, t) {
      LeavesForAReason(st, Before(actions), t);
      RunLast(st, actions);
      hide Next, Run, Reason, Searching;
      SearchGoesOn(Run(st, Before(actions)), actions[|actions| - 1], t);
    }
  }

  lemma SearchGoesOn(st: State, a: Action, t: nat)
    requires t in st.calls && Searching(st.calls[t]) && !Reason(st, a, t)
    ensures t in Next(st, a).calls && Searching(Next(st, a).calls[t])
  {
    hide SelectStepAt, EventStepAt;
    match a
    case SelectStep(u, timeout) =>
      if u == t { StepSearches(st, t, timeout); } else if u in st.calls { StepKeepsOthers(st, u, timeout, t); }
    case EventStep(e) => if e in st.callbacks { EventSearches(st, e, t); }
    case _ =>
  }

  lemma StepSearches(st: State, t: nat, timeout: bool)
    requires t in st.calls && Searching(st.calls[t]) && !Reason(st, SelectStep(t, timeout), t)
    ensures var st' := SelectStepAt(st, t, timeout); t in st'.calls && Searching(st'.calls[t])
  {
    hide CoreLocked, Without, Bumped, SeesEvent, BadDescriptor, CounterFull;
    var call := st.calls[t];
    match call.place
    case FirstScan(i, _) => NothingAt(call, st.socks, i);
    case SecondScan(i, _) => NothingAt(call, st.socks, i);
    case Counting(i) => NothingAt(call, st.socks, i);
    case _ =>
  }

  /** What a scan finds at socket i of a call that has no reason to leave. */
  lemma NothingAt(call: Call, socks: seq<Sock>, i: nat)
    requires !SeesEvent(call, socks) && !BadDescriptor(call, socks)
    ensures i < call.maxfdp1 && call.Wants(i) ==> i < |socks| && Hits(call, i, socks[i]) == 0
    ensures i < |socks| && call.Wants(i) && socks[i].waiting == 0xFF ==> CounterFull(call, socks)
  {
    if i < call.maxfdp1 && call.Wants(i) {
      var k := if i in call.readset then Recv else if i in call.writeset then Send else Except;
      assert i in call.Watched(k);
      assert i in call.readset <==> i in call.Watched(Recv);
      assert i in call.writeset <==> i in call.Watched(Send);
      assert i in call.exceptset <==> i in call.Watched(Except);
    }
  }

  lemma EventSearches(st: State, e: nat, t: nat)
    requires e in st.callbacks && t in st.calls && Searching(st.calls[t])
    ensures t in EventStepAt(st, e).calls && Searching(EventStepAt(st, e).calls[t])
  {
    hide Flags, Updated, CheckWaiters, Concerns;
  }

  // ---------- A call that nothing interferes with ----------

  /** n steps of call t */
  function Own(t: nat, n: nat): seq<Action> { seq(n, _ => SelectStep(t, false)) }

  lemma OwnNext(st: State, t: nat, n: nat)
    ensures Run(st, Own(t, n + 1)) == Next(Run(st, Own(t, n)), SelectStep(t, false))
    ensures Run(st, Own(t, 0)) == st
  {
    assert Own(t, n + 1)[..n] == Own(t, n);
  }

  lemma {:induction false} RunBoth(st: State, first: seq<Action>, more: seq<Action>)
    ensures Run(st, first + more) == Run(Run(st, first), more)
  {
    hide Next;
    if more == [] {
      assert first + more == first;
    } else {
      RunBoth(st, first, Before(more));
      assert (first + more)[..|first + more| - 1] == first + Before(more);
    }
  }

  lemma OwnBoth(st: State, t: nat, m: nat, n: nat)
    ensures Run(st, Own(t, m + n)) == Run(Run(st, Own(t, m)), Own(t, n))
  {
    assert Own(t, m + n) == Own(t, m) + Own(t, n);
    RunBoth(st, Own(t, m), Own(t, n));
  }

  /** What a scan adds up over the sockets below n. */
  function Found(call: Call, socks: seq<Sock>, n: nat): nat {
    if n == 0 then 0
    else Found(call, socks, n - 1) + if n - 1 < |socks| then Hits(call, n - 1, socks[n - 1]) else 0
  }

  lemma {:induction false} FoundMeans(call: Call, socks: seq<Sock>, n: nat)
    ensures 0 < Found(call, socks, n) <==>
      exists i: nat, k: Kind :: i < n && i < |socks| && i in call.Watched(k) && socks[i].Scanned(k)
  {
    if n != 0 {
      FoundMeans(call, socks, n - 1);
      if n - 1 < |socks| { HitsMeans(call, n - 1, socks[n - 1]); }
    }
  }

  lemma HitsMeans(call: Call, i: nat, so: Sock)
    ensures 0 < Hits(call, i, so) <==> exists k: Kind :: i in call.Watched(k) && so.Scanned(k)
    ensures i < call.maxfdp1 && !call.Wants(i) ==> Hits(call, i, so) == 0
  {
    assert i in call.readset && so.Scanned(Recv) ==> i in call.Watched(Recv);
    assert i in call.writeset && so.Scanned(Send) ==> i in call.Watched(Send);
    assert i in call.exceptset && so.Scanned(Except) ==> i in call.Watched(Except);
  }

  lemma WantsMeans(call: Call, i: nat)
    ensures call.Wants(i) <==> i < call.maxfdp1 && exists k: Kind :: i in call.Watched(k)
  {
    assert i in call.readset ==> i in call.Watched(Recv);
    assert i in call.writeset ==> i in call.Watched(Send);
    assert i in call.exceptset ==> i in call.Watched(Except);
  }

  lemma AtAgain(st: State, t: nat, place: Place, place': Place)
    requires t in st.calls
    ensures At(At(st, t, place), t, place') == At(st, t, place') && Leave(At(st, t, place), t) == Leave(st, t)
    ensures At(st, t, st.calls[t].place) == st
  {
    assert st.calls[t := st.calls[t]] == st.calls;
    assert st.calls[t := st.calls[t].(place := place)] - {t} == st.calls - {t};
  }

  lemma FirstScanNext(st: State, t: nat, n: nat, found: nat)
    requires t in st.calls && n < st.calls[t].maxfdp1 && (st.calls[t].Wants(n) ==> n < |st.socks|)
    ensures Next(At(st, t, FirstScan(n, found)), SelectStep(t, false))
         == At(st, t, FirstScan(n + 1, found + if n < |st.socks| then Hits(st.calls[t], n, st.socks[n]) else 0))
  {
    var to := FirstScan(n + 1, found + if n < |st.socks| then Hits(st.calls[t], n, st.socks[n]) else 0);
    AtAgain(st, t, FirstScan(n, found), to);
    if n < |st.socks| { HitsMeans(st.calls[t], n, st.socks[n]); }
  }

  lemma {:induction false} FirstScanAlone(st: State, t: nat, n: nat)
    requires t in st.calls && Begins(st.calls[t]) && n <= st.calls[t].maxfdp1
    requires forall i: nat :: i < n && st.calls[t].Wants(i) ==> i < |st.socks|
    ensures Run(st, Own(t, n)) == At(st, t, FirstScan(n, Found(st.calls[t], st.socks, n)))
  {
    hide Next, At;
    if n == 0 {
      OwnNext(st, t, 0);
      AtAgain(st, t, FirstScan(0, 0), FirstScan(0, 0));
    } else {
      FirstScanAlone(st, t, n - 1);
      OwnNext(st, t, n - 1);
      FirstScanNext(st, t, n - 1, Found(st.calls[t], st.socks, n - 1));
    }
  }

  lemma {:induction false} StaysAway(st: State, t: nat, n: nat)
    requires t !in st.calls
    ensures Run(st, Own(t, n)) == st
  {
    OwnNext(st, t, if n == 0 then 0 else n - 1);
    if n != 0 { StaysAway(st, t, n - 1); }
  }

  /** The first socket that a call wants and that does not exist, if any */
  lemma {:induction false} FirstMissing(call: Call, socks: seq<Sock>, n: nat) returns (i: nat)
    ensures i <= n && (forall j: nat :: j < i && call.Wants(j) ==> j < |socks|)
    ensures i < n ==> call.Wants(i) && |socks| <= i
  {
    if n == 0 { return 0; }
    i := FirstMissing(call, socks, n - 1);
    if i == n - 1 && !(call.Wants(i) && |socks| <= i) { i := n; }
  }

  /** A call that may not wait, or that finds an event or a descriptor that is no socket, returns when its scan is over,
      and has changed nothing. */
  lemma ReturnsAtOnce(st: State, t: nat)
    requires t in st.calls && Begins(st.calls[t])
    requires st.calls[t].noWait || SeesEvent(st.calls[t], st.socks) || BadDescriptor(st.calls[t], st.socks)
    ensures Run(st, Own(t, st.calls[t].maxfdp1 + 1)) == Leave(st, t)
  {
    hide Next, Own, Run, Searching;
    var call, m := st.calls[t], st.calls[t].maxfdp1;
    var i := FirstMissing(call, st.socks, m);
    FirstScanAlone(st, t, i);
    OwnNext(st, t, i);
    var found := Found(call, st.socks, i);
    AtAgain(st, t, FirstScan(i, found), Linking);
    if i < m {
      MissingLeaves(st, t, i, found);
      OwnBoth(st, t, i + 1, m - i);
      StaysAway(Leave(st, t), t, m - i);
    } else {
      NoneMissing(call, st.socks);
      FoundMeans(call, st.socks, m);
      ScanOver(st, t, found);
    }
  }

  lemma NoneMissing(call: Call, socks: seq<Sock>)
    requires forall j: nat :: j < call.maxfdp1 && call.Wants(j) ==> j < |socks|
    ensures !BadDescriptor(call, socks)
  {
    forall i: nat, k: Kind | i < call.maxfdp1 && i in call.Watched(k) ensures i < |socks| { WantsMeans(call, i); }
  }

  lemma MissingLeaves(st: State, t: nat, i: nat, found: nat)
    requires t in st.calls && st.calls[t].Wants(i) && |st.socks| <= i
    ensures Next(At(st, t, FirstScan(i, found)), SelectStep(t, false)) == Leave(st, t)
  {
    AtAgain(st, t, FirstScan(i, found), Linking);
  }

  /** The end of the first scan */
  lemma ScanOver(st: State, t: nat, found: nat)
    requires t in st.calls
    ensures Next(At(st, t, FirstScan(st.calls[t].maxfdp1, found)), SelectStep(t, false))
         == if 0 < found || st.calls[t].noWait then Leave(st, t) else At(st, t, Linking)
  {
    AtAgain(st, t, FirstScan(st.calls[t].maxfdp1, found), Linking);
  }

  // ---------- Falling asleep ----------

  /** The sockets below n that the call wants, each with its counter changed by d */
  function Counted(call: Call, socks: seq<Sock>, n: nat, d: int): seq<Sock>
    requires forall i :: 0 <= i < n && i < |socks| && call.Wants(i) ==> 0 <= socks[i].waiting + d
  {
    seq(|socks|, i requires 0 <= i < |socks| =>
      if i < n && call.Wants(i) then socks[i].(waiting := socks[i].waiting + d) else socks[i])
  }

  lemma CountingNext(st: State, t: nat, n: nat)
    requires t in st.calls && n < st.calls[t].maxfdp1
    requires st.calls[t].Wants(n) ==> n < |st.socks| && st.socks[n].waiting != 0xFF
    ensures var call := st.calls[t];
      Next(At(st.(socks := Counted(call, st.socks, n, 1)), t, Counting(n)), SelectStep(t, false))
      == At(st.(socks := Counted(call, st.socks, n + 1, 1)), t, Counting(n + 1))
  {
    var call := st.calls[t];
    var st0, st1 := st.(socks := Counted(call, st.socks, n, 1)), st.(socks := Counted(call, st.socks, n + 1, 1));
    AtAgain(st0, t, Counting(n), Counting(n + 1));
    AtAgain(st1, t, Counting(n), Counting(n + 1));
    if call.Wants(n) {
      assert st1.socks == st0.socks[n := st0.socks[n].(waiting := st0.socks[n].waiting + 1)];
    } else {
      assert st1.socks == st0.socks;
    }
  }

  lemma {:induction false} CountingAlone(st: State, t: nat, n: nat)
    requires t in st.calls && st.calls[t].place == Counting(0) && n <= st.calls[t].maxfdp1
    requires forall i: nat :: i < n && st.calls[t].Wants(i) ==> i < |st.socks| && st.socks[i].waiting != 0xFF
    ensures Run(st, Own(t, n)) == At(st.(socks := Counted(st.calls[t], st.socks, n, 1)), t, Counting(n))
  {
    hide Next, At;
    if n == 0 {
      OwnNext(st, t, 0);
      AtAgain(st, t, Counting(0), Counting(0));
      assert Counted(st.calls[t], st.socks, 0, 1) == st.socks;
    } else {
      CountingAlone(st, t, n - 1);
      OwnNext(st, t, n - 1);
      CountingNext(st, t, n - 1);
    }
  }

  lemma SecondScanNext(st: State, t: nat, n: nat)
    requires t in st.calls && n < st.calls[t].maxfdp1 && (st.calls[t].Wants(n) ==> n < |st.socks|)
    requires n < |st.socks| ==> Hits(st.calls[t], n, st.socks[n]) == 0
    ensures Next(At(st, t, SecondScan(n, 0)), SelectStep(t, false)) == At(st, t, SecondScan(n + 1, 0))
  {
    AtAgain(st, t, SecondScan(n, 0), SecondScan(n + 1, 0));
  }

  lemma {:induction false} SecondScanAlone(st: State, t: nat, n: nat)
    requires t in st.calls && st.calls[t].place == SecondScan(0, 0) && n <= st.calls[t].maxfdp1
    requires forall i: nat :: i < n && st.calls[t].Wants(i) ==> i < |st.socks|
    requires forall i: nat :: i < n && i < |st.socks| ==> Hits(st.calls[t], i, st.socks[i]) == 0
    ensures Run(st, Own(t, n)) == At(st, t, SecondScan(n, 0))
  {
    hide Next, At;
    if n == 0 {
      OwnNext(st, t, 0);
      AtAgain(st, t, SecondScan(0, 0), SecondScan(0, 0));
    } else {
      SecondScanAlone(st, t, n - 1);
      OwnNext(st, t, n - 1);
      SecondScanNext(st, t, n - 1);
    }
  }

  /** Call t sleeps: it is at the head of the list and counted on the sockets it watches, and that is all. */
  function Asleep(st: State, t: nat): State
    requires t in st.calls
  {
    At(st.(socks := Counted(st.calls[t], st.socks, st.calls[t].maxfdp1, 1), list := [t] + st.list, generation := Bumped(st)), t, Waiting)
  }

  /** The call watches sockets only, and none of them has an event for it. */
  ghost predicate NothingThere(call: Call, socks: seq<Sock>) {
    && (forall i: nat :: call.Wants(i) ==> i < |socks|)
    && (forall i: nat :: i < call.maxfdp1 && i < |socks| ==> Hits(call, i, socks[i]) == 0)
  }

  /** All counters can be raised. */
  ghost predicate Room(call: Call, socks: seq<Sock>) {
    forall i: nat :: call.Wants(i) && i < |socks| ==> socks[i].waiting != 0xFF
  }

  lemma StillNothing(call: Call, place: Place, socks: seq<Sock>, n: nat)
    requires NothingThere(call, socks)
    ensures NothingThere(call.(place := place), Counted(call, socks, n, 1))
  {
    var call', socks' := call.(place := place), Counted(call, socks, n, 1);
    forall i: nat | i < call.maxfdp1 && i < |socks| ensures Hits(call', i, socks'[i]) == 0 {
      HitsMeans(call, i, socks[i]);
      HitsMeans(call', i, socks'[i]);
    }
    assert forall i: nat :: call'.Wants(i) ==> call.Wants(i);
  }

  /** What a call with no reason to return finds */
  lemma FindsNothing(call: Call, socks: seq<Sock>)
    requires !SeesEvent(call, socks) && !BadDescriptor(call, socks)
    ensures NothingThere(call, socks) && (!CounterFull(call, socks) ==> Room(call, socks))
    ensures Found(call, socks, call.maxfdp1) == 0
  {
    FoundMeans(call, socks, call.maxfdp1);
    forall i: nat | i < call.maxfdp1
      ensures call.Wants(i) ==> i < |socks| && (CounterFull(call, socks) || socks[i].waiting != 0xFF)
      ensures i < |socks| ==> Hits(call, i, socks[i]) == 0
    {
      NothingAt(call, socks, i);
      if i < |socks| { HitsMeans(call, i, socks[i]); }
    }
  }

  lemma LooksOnce(st: State, t: nat)
    requires t in st.calls && Begins(st.calls[t]) && !st.calls[t].noWait
    requires !SeesEvent(st.calls[t], st.socks) && !BadDescriptor(st.calls[t], st.socks)
    ensures Run(st, Own(t, st.calls[t].maxfdp1 + 1)) == At(st, t, Linking)
  {
    hide Next, Own, Run, At, SeesEvent, BadDescriptor, CounterFull;
    var m := st.calls[t].maxfdp1;
    FindsNothing(st.calls[t], st.socks);
    FirstScanAlone(st, t, m);
    OwnNext(st, t, m);
    ScanOver(st, t, 0);
  }

  /** The call is on the list, and counts itself next. */
  function OnList(st: State, t: nat): State
    requires t in st.calls
  {
    At(st.(list := [t] + st.list, generation := Bumped(st)), t, Counting(0))
  }

  lemma EntersList(st: State, t: nat)
    requires t in st.calls && !(st.coreLocking && CoreLocked(st))
    ensures Run(At(st, t, Linking), Own(t, 1)) == OnList(st, t)
  {
    OwnNext(At(st, t, Linking), t, 0);
    AtAgain(st.(list := [t] + st.list, generation := Bumped(st)), t, Linking, Counting(0));
  }

  lemma CountsItself(st: State, t: nat)
    requires t in st.calls && st.calls[t].place == Counting(0) && NothingThere(st.calls[t], st.socks) && Room(st.calls[t], st.socks)
    ensures var call := st.calls[t];
      Run(st, Own(t, call.maxfdp1 + 1)) == At(st.(socks := Counted(call, st.socks, call.maxfdp1, 1)), t, SecondScan(0, 0))
  {
    hide Next, Run, Own, At, Hits;
    var call, m := st.calls[t], st.calls[t].maxfdp1;
    CountingAlone(st, t, m);
    OwnNext(st, t, m);
    CountingOver(st.(socks := Counted(call, st.socks, m, 1)), t);
  }

  lemma CountingOver(st: State, t: nat)
    requires t in st.calls
    ensures Next(At(st, t, Counting(st.calls[t].maxfdp1)), SelectStep(t, false)) == At(st, t, SecondScan(0, 0))
  {
    AtAgain(st, t, Counting(st.calls[t].maxfdp1), SecondScan(0, 0));
  }

  lemma LooksAgain(st: State, t: nat)
    requires t in st.calls && st.calls[t].place == SecondScan(0, 0) && NothingThere(st.calls[t], st.socks)
    ensures Run(st, Own(t, st.calls[t].maxfdp1 + 1)) == At(st, t, Waiting)
  {
    hide Next, Run, Own, At, Hits;
    var m := st.calls[t].maxfdp1;
    SecondScanAlone(st, t, m);
    OwnNext(st, t, m);
    LooksOver(st, t);
  }

  /** The end of the second scan, when it has found nothing */
  lemma LooksOver(st: State, t: nat)
    requires t in st.calls
    ensures Next(At(st, t, SecondScan(st.calls[t].maxfdp1, 0)), SelectStep(t, false)) == At(st, t, Waiting)
  {
    AtAgain(st, t, SecondScan(st.calls[t].maxfdp1, 0), Waiting);
  }

  /** From the first counter on */
  lemma CountsAndLooks(st: State, t: nat)
    requires t in st.calls && st.calls[t].place == Counting(0) && NothingThere(st.calls[t], st.socks) && Room(st.calls[t], st.socks)
    ensures var call := st.calls[t];
      Run(st, Own(t, 2 * call.maxfdp1 + 2)) == At(st.(socks := Counted(call, st.socks, call.maxfdp1, 1)), t, Waiting)
  {
    hide Run, Own, At, NothingThere, Room, Counted;
    var call, m := st.calls[t], st.calls[t].maxfdp1;
    CountsItself(st, t);
    var st1 := st.(socks := Counted(call, st.socks, m, 1));
    AtIs(st1, t, SecondScan(0, 0));
    StillNothing(call, SecondScan(0, 0), st.socks, m);
    LooksAgain(At(st1, t, SecondScan(0, 0)), t);
    AtAgain(st1, t, SecondScan(0, 0), Waiting);
    OwnBoth(st, t, m + 1, m + 1);
  }

  lemma AtIs(st: State, t: nat, place: Place)
    requires t in st.calls
    ensures t in At(st, t, place).calls && At(st, t, place).calls[t] == st.calls[t].(place := place)
    ensures At(st, t, place).socks == st.socks
  {
  }

  /** A call that may wait, and finds no event, only sockets, and no full counter, falls asleep and sleeps on. */
  lemma FallsAsleep(st: State, t: nat)
    requires t in st.calls && Begins(st.calls[t]) && !(st.coreLocking && CoreLocked(st)) && !st.calls[t].noWait
    requires !SeesEvent(st.calls[t], st.socks) && !BadDescriptor(st.calls[t], st.socks) && !CounterFull(st.calls[t], st.socks)
    ensures Run(st, Own(t, 3 * st.calls[t].maxfdp1 + 4)) == Asleep(st, t)
    ensures Next(Asleep(st, t), SelectStep(t, false)) == Asleep(st, t)
  {
    hide *;
    var m := st.calls[t].maxfdp1;
    FindsNothing(st.calls[t], st.socks);
    SleepsOn(st, t);
    OnListIs(st, t);
    OnListAsleep(st, t);
    LooksOnce(st, t);
    EntersList(st, t);
    CountsAndLooks(OnList(st, t), t);
    OwnBoth(st, t, m + 1, 1);
    OwnBoth(st, t, m + 2, 2 * m + 2);
  }

  lemma SleepsOn(st: State, t: nat)
    requires t in st.calls && Begins(st.calls[t])
    ensures Next(Asleep(st, t), SelectStep(t, false)) == Asleep(st, t)
  {
  }

  lemma OnListIs(st: State, t: nat)
    requires t in st.calls && NothingThere(st.calls[t], st.socks)
    ensures var l := OnList(st, t);
      && t in l.calls && l.calls[t].place == Counting(0) && l.calls[t].maxfdp1 == st.calls[t].maxfdp1
      && NothingThere(l.calls[t], l.socks) && (Room(st.calls[t], st.socks) ==> Room(l.calls[t], l.socks))
  {
    var call, l := st.calls[t], OnList(st, t);
    assert forall i: nat :: l.calls[t].Wants(i) ==> call.Wants(i);
    forall i: nat | i < call.maxfdp1 && i < |st.socks| ensures Hits(l.calls[t], i, st.socks[i]) == 0 {
      HitsMeans(call, i, st.socks[i]);
      HitsMeans(l.calls[t], i, st.socks[i]);
    }
  }

  lemma OnListAsleep(st: State, t: nat)
    requires t in st.calls
    ensures var l := OnList(st, t);
      t in l.calls && At(l.(socks := Counted(l.calls[t], l.socks, l.calls[t].maxfdp1, 1)), t, Waiting) == Asleep(st, t)
  {
    var call, l := st.calls[t], OnList(st, t);
    assert Counted(l.calls[t], l.socks, l.calls[t].maxfdp1, 1) == Counted(call, st.socks, call.maxfdp1, 1);
    AtAgain(st.(socks := Counted(call, st.socks, call.maxfdp1, 1), list := [t] + st.list, generation := Bumped(st)), t, Counting(0), Waiting);
  }

  // ---------- Leaving ----------

  /** Every counter the call has raised on its first sockets can be lowered. */
  ghost predicate Lowerable(call: Call, socks: seq<Sock>, n: nat) {
    forall i: nat :: i < n && call.Wants(i) ==> i < |socks| && 0 < socks[i].waiting
  }

  lemma UncountingNext(st: State, t: nat, n: nat, limit: nat)
    requires t in st.calls && n < limit && Lowerable(st.calls[t], st.socks, limit)
    ensures var call := st.calls[t];
      Next(At(st.(socks := Counted(call, st.socks, n, -1)), t, Uncounting(n, limit)), SelectStep(t, false))
      == At(st.(socks := Counted(call, st.socks, n + 1, -1)), t, Uncounting(n + 1, limit))
  {
    var call := st.calls[t];
    var st0, st1 := st.(socks := Counted(call, st.socks, n, -1)), st.(socks := Counted(call, st.socks, n + 1, -1));
    AtAgain(st0, t, Uncounting(n, limit), Uncounting(n + 1, limit));
    AtAgain(st1, t, Uncounting(n, limit), Uncounting(n + 1, limit));
    if call.Wants(n) {
      assert st1.socks == st0.socks[n := st0.socks[n].(waiting := st0.socks[n].waiting - 1)];
    } else {
      assert st1.socks == st0.socks;
    }
  }

  lemma {:induction false} UncountingAlone(st: State, t: nat, n: nat, limit: nat)
    requires t in st.calls && st.calls[t].place == Uncounting(0, limit) && n <= limit && Lowerable(st.calls[t], st.socks, limit)
    ensures Run(st, Own(t, n)) == At(st.(socks := Counted(st.calls[t], st.socks, n, -1)), t, Uncounting(n, limit))
  {
    hide Next, At;
    if n == 0 {
      OwnNext(st, t, 0);
      AtAgain(st, t, Uncounting(0, limit), Uncounting(0, limit));
      assert Counted(st.calls[t], st.socks, 0, -1) == st.socks;
    } else {
      UncountingAlone(st, t, n - 1, limit);
      OwnNext(st, t, n - 1);
      UncountingNext(st, t, n - 1, limit);
    }
  }

  /** The call has left: it is off the list and counted nowhere. */
  function Gone(st: State, t: nat, limit: nat): State
    requires t in st.calls && Lowerable(st.calls[t], st.socks, limit)
  {
    Unlinked(st.(socks := Counted(st.calls[t], st.socks, limit, -1)), t)
  }

  lemma Uncounted(st: State, t: nat, limit: nat)
    requires t in st.calls
    ensures Next(At(st, t, Uncounting(limit, limit)), SelectStep(t, false)) == At(st, t, Unlinking)
  {
    AtAgain(st, t, Uncounting(limit, limit), Unlinking);
  }

  /** The state once call t has left the list */
  function Unlinked(st: State, t: nat): State { Leave(st.(list := Without(st.list, t), generation := Bumped(st)), t) }

  lemma UnlinkStep(st: State, t: nat)
    requires t in st.calls && st.calls[t].place.Unlinking? && !(st.coreLocking && CoreLocked(st))
    ensures Next(st, SelectStep(t, false)) == Unlinked(st, t)
  {
    hide Without, CoreLocked, HoldsCoreLock, Hits;
  }

  lemma UnlinkedAt(st: State, t: nat, place: Place)
    requires t in st.calls
    ensures Unlinked(At(st, t, place), t) == Unlinked(st, t)
    ensures CoreLocked(At(st, t, place)) == CoreLocked(st)
  {
    hide Without;
    assert At(st, t, place).calls - {t} == st.calls - {t};
  }

  lemma Unlinks(st: State, t: nat)
    requires t in st.calls && !(st.coreLocking && CoreLocked(st))
    ensures Next(At(st, t, Unlinking), SelectStep(t, false)) == Unlinked(st, t)
  {
    UnlinkedAt(st, t, Unlinking);
    hide Next, CoreLocked, Without, Unlinked;
    UnlinkStep(At(st, t, Unlinking), t);
  }

  lemma LastSteps(st: State, t: nat, limit: nat)
    requires t in st.calls && !(st.coreLocking && CoreLocked(st))
    ensures Run(At(st, t, Uncounting(limit, limit)), Own(t, 2))
         == Unlinked(st, t)
  {
    hide Next, At, Unlinked, Run, Own;
    var st0 := At(st, t, Uncounting(limit, limit));
    OwnNext(st0, t, 0);
    OwnNext(st0, t, 1);
    Uncounted(st, t, limit);
    Unlinks(st, t);
  }

  lemma LeavesAlone(st: State, t: nat, limit: nat)
    requires t in st.calls && st.calls[t].place == Uncounting(0, limit) && Lowerable(st.calls[t], st.socks, limit)
    requires !(st.coreLocking && CoreLocked(st))
    ensures Run(st, Own(t, limit + 2)) == Gone(st, t, limit)
  {
    hide Next, Run, Own, At;
    var st1 := st.(socks := Counted(st.calls[t], st.socks, limit, -1));
    UncountingAlone(st, t, limit, limit);
    LastSteps(st1, t, limit);
    OwnBoth(st, t, limit, 2);
  }

  /** A sleeping call that was told of an event leaves, and takes back what it had counted. */
  lemma WakesUp(st: State, t: nat)
    requires t in st.calls && st.calls[t].place.Waiting? && 0 < st.calls[t].sem
    requires Lowerable(st.calls[t], st.socks, st.calls[t].maxfdp1) && !(st.coreLocking && CoreLocked(st))
    ensures Run(st, Own(t, st.calls[t].maxfdp1 + 3)) == Gone(st, t, st.calls[t].maxfdp1)
  {
    var m := st.calls[t].maxfdp1;
    var st1 := TakesSignal(st, t);
    hide Next, Run, Own, Lowerable, Counted, CoreLocked, Gone;
    LeavesAlone(st1, t, m);
    OwnBoth(st, t, 1, m + 2);
  }

  lemma TakesSignal(st: State, t: nat) returns (st1: State)
    requires t in st.calls && st.calls[t].place.Waiting? && 0 < st.calls[t].sem && Lowerable(st.calls[t], st.socks, st.calls[t].maxfdp1)
    ensures Run(st, Own(t, 1)) == st1 && CoreLocked(st1) == CoreLocked(st) && st1.coreLocking == st.coreLocking
    ensures var m := st.calls[t].maxfdp1;
      && t in st1.calls && st1.calls[t].place == Uncounting(0, m) && Lowerable(st1.calls[t], st1.socks, m)
      && Gone(st1, t, m) == Gone(st, t, m)
  {
    var call, m := st.calls[t], st.calls[t].maxfdp1;
    var call' := call.(sem := call.sem - 1, place := Uncounting(0, m));
    st1 := st.(calls := st.calls[t := call']);
    hide Without, CoreLocked;
    OwnNext(st, t, 0);
    assert forall i: nat :: call'.Wants(i) == call.Wants(i);
    assert Counted(call', st.socks, m, -1) == Counted(call, st.socks, m, -1);
    assert st1.calls - {t} == st.calls - {t};
    SameLock(st, st1);
  }

  lemma SameLock(st: State, st': State)
    requires st'.callbacks == st.callbacks
    ensures CoreLocked(st') == CoreLocked(st)
  {
  }

  /** A sleeping call that has been told */
  function Signalled(st: State, t: nat): State
    requires t in st.calls
  {
    st.(calls := st.calls[t := st.calls[t].(signalled := true, sem := 1)])
  }

  lemma GoneAfterSleep(st: State, t: nat)
    requires t in st.calls && !BadDescriptor(st.calls[t], st.socks)
    ensures t in Asleep(st, t).calls
    ensures var m := st.calls[t].maxfdp1;
      var told := Signalled(Asleep(st, t), t);
      && t in told.calls && told.calls[t].place.Waiting? && told.calls[t].sem == 1 && told.calls[t].maxfdp1 == m
      && told.coreLocking == st.coreLocking && CoreLocked(told) == CoreLocked(st) && Lowerable(told.calls[t], told.socks, m)
      && var r := Gone(told, t, m);
         r.socks == st.socks && r.list == st.list && r.calls == st.calls - {t} && r.callbacks == st.callbacks
  {
    var call, m, told := st.calls[t], st.calls[t].maxfdp1, Signalled(Asleep(st, t), t);
    assert forall i: nat :: told.calls[t].Wants(i) == call.Wants(i);
    forall i: nat | i < m && call.Wants(i) ensures i < |st.socks| { WantsMeans(call, i); }
    hide BadDescriptor;
    assert Counted(told.calls[t], told.socks, m, -1) == st.socks;
    assert told.calls - {t} == st.calls - {t};
    assert ([t] + st.list)[1..] == st.list;
  }

  /** A call that sleeps and is then told leaves nothing behind: sockets, list and calls are as before it began. */
  lemma NothingIsLeft(st: State, t: nat)
    requires t in st.calls && !(st.coreLocking && CoreLocked(st)) && !BadDescriptor(st.calls[t], st.socks)
    ensures var r := Run(Signalled(Asleep(st, t), t), Own(t, st.calls[t].maxfdp1 + 3));
      r.socks == st.socks && r.list == st.list && r.calls == st.calls - {t} && r.callbacks == st.callbacks
  {
    hide *;
    GoneAfterSleep(st, t);
    WakesUp(Signalled(Asleep(st, t), t), t);
  }

  // ---------- A full counter ----------

  /** The first socket whose counter is full, if any */
  lemma {:induction false} FirstFull(call: Call, socks: seq<Sock>, n: nat) returns (i: nat)
    requires forall j: nat :: call.Wants(j) ==> j < |socks|
    ensures i <= n && forall j: nat :: j < i && call.Wants(j) ==> socks[j].waiting != 0xFF
    ensures i < n ==> call.Wants(i) && socks[i].waiting == 0xFF
  {
    if n == 0 { return 0; }
    i := FirstFull(call, socks, n - 1);
    if i == n - 1 && !(call.Wants(i) && socks[i].waiting == 0xFF) { i := n; }
  }

  lemma MeetsFullCounter(st: State, t: nat, i: nat)
    requires t in st.calls && st.calls[t].place == Counting(0) && i < st.calls[t].maxfdp1
    requires st.calls[t].Wants(i) && i < |st.socks| && st.socks[i].waiting == 0xFF
    requires forall j: nat :: j < i && st.calls[t].Wants(j) ==> j < |st.socks| && st.socks[j].waiting != 0xFF
    ensures Run(st, Own(t, i + 1)) == At(st.(socks := Counted(st.calls[t], st.socks, i, 1)), t, Uncounting(0, i))
  {
    var st1 := st.(socks := Counted(st.calls[t], st.socks, i, 1));
    assert st1.socks[i].waiting == 0xFF && |st1.socks| == |st.socks|;
    hide Next, Run, Own, At, Counted;
    CountingAlone(st, t, i);
    OwnNext(st, t, i);
    CounterMet(st1, t, i);
  }

  lemma CounterMet(st: State, t: nat, i: nat)
    requires t in st.calls && st.calls[t].Wants(i) && i < |st.socks| && st.socks[i].waiting == 0xFF
    ensures Next(At(st, t, Counting(i)), SelectStep(t, false)) == At(st, t, Uncounting(0, i))
  {
    AtAgain(st, t, Counting(i), Uncounting(0, i));
  }

  lemma TakesBack(st: State, t: nat, i: nat)
    requires t in st.calls && !(st.coreLocking && CoreLocked(st))
    requires forall j: nat :: j < i && st.calls[t].Wants(j) ==> j < |st.socks|
    ensures Run(At(st.(socks := Counted(st.calls[t], st.socks, i, 1)), t, Uncounting(0, i)), Own(t, i + 2)) == Unlinked(st, t)
  {
    var call := st.calls[t];
    var st1 := At(st.(socks := Counted(call, st.socks, i, 1)), t, Uncounting(0, i));
    assert forall j: nat :: st1.calls[t].Wants(j) == call.Wants(j);
    SameLock(st, st1);
    LeavesAlone(st1, t, i);
    assert Counted(st1.calls[t], st1.socks, i, -1) == st.socks;
    assert st1.calls - {t} == st.calls - {t};
  }

  /** From the first counter on, the one of socket i being full */
  lemma TurnsBack(st: State, t: nat, i: nat)
    requires t in st.calls && st.calls[t].place == Counting(0) && i < st.calls[t].maxfdp1 && !(st.coreLocking && CoreLocked(st))
    requires st.calls[t].Wants(i) && i < |st.socks| && st.socks[i].waiting == 0xFF
    requires forall j: nat :: j < i && st.calls[t].Wants(j) ==> j < |st.socks| && st.socks[j].waiting != 0xFF
    ensures Run(st, Own(t, 2 * st.calls[t].maxfdp1 + 1)) == Unlinked(st, t)
  {
    hide Run, Own, Next, Counted, CoreLocked, At, Unlinked;
    var rest := 2 * (st.calls[t].maxfdp1 - i) - 2;
    MeetsFullCounter(st, t, i);
    TakesBack(st, t, i);
    GoneFromCalls(st, t);
    OwnBoth(st, t, i + 1, i + 2);
    OwnBoth(st, t, 2 * i + 3, rest);
    StaysAway(Unlinked(st, t), t, rest);
  }

  lemma GoneFromCalls(st: State, t: nat)
    ensures t !in Unlinked(st, t).calls
  {
  }

  /** Entering the list and leaving it again */
  lemma InAndOut(st: State, t: nat)
    requires t in st.calls
    ensures var r := Unlinked(OnList(st, t), t);
      r.socks == st.socks && r.list == st.list && r.calls == st.calls - {t} && r.callbacks == st.callbacks
    ensures CoreLocked(OnList(st, t)) == CoreLocked(st) && OnList(st, t).coreLocking == st.coreLocking
  {
    assert OnList(st, t).calls - {t} == st.calls - {t};
    assert ([t] + st.list)[1..] == st.list;
  }

  lemma FullOnList(st: State, t: nat) returns (i: nat)
    requires t in st.calls && !SeesEvent(st.calls[t], st.socks) && !BadDescriptor(st.calls[t], st.socks)
    requires CounterFull(st.calls[t], st.socks)
    ensures var l := OnList(st, t);
      && t in l.calls && l.calls[t].place == Counting(0) && l.calls[t].maxfdp1 == st.calls[t].maxfdp1
      && i < l.calls[t].maxfdp1 && l.calls[t].Wants(i) && i < |l.socks| && l.socks[i].waiting == 0xFF
      && forall j: nat :: j < i && l.calls[t].Wants(j) ==> j < |l.socks| && l.socks[j].waiting != 0xFF
  {
    var call, l := st.calls[t], OnList(st, t);
    FindsNothing(call, st.socks);
    i := FirstFull(call, st.socks, call.maxfdp1);
    SomeFull(call, st.socks);
    assert forall j: nat :: l.calls[t].Wants(j) == call.Wants(j);
  }

  /** A call that cannot be counted everywhere leaves without having slept, and leaves nothing behind. */
  lemma GivesUp(st: State, t: nat)
    requires t in st.calls && Begins(st.calls[t]) && !(st.coreLocking && CoreLocked(st)) && !st.calls[t].noWait
    requires !SeesEvent(st.calls[t], st.socks) && !BadDescriptor(st.calls[t], st.socks) && CounterFull(st.calls[t], st.socks)
    ensures var r := Run(st, Own(t, 3 * st.calls[t].maxfdp1 + 3));
      r.socks == st.socks && r.list == st.list && r.calls == st.calls - {t} && r.callbacks == st.callbacks
  {
    hide *;
    var m := st.calls[t].maxfdp1;
    var i := FullOnList(st, t);
    LooksOnce(st, t);
    EntersList(st, t);
    InAndOut(st, t);
    TurnsBack(OnList(st, t), t, i);
    OwnBoth(st, t, m + 1, 1);
    OwnBoth(st, t, m + 2, 2 * m + 1);
  }

  lemma SomeFull(call: Call, socks: seq<Sock>)
    requires CounterFull(call, socks)
    ensures exists j: nat :: j < |socks| && call.Wants(j) && socks[j].waiting == 0xFF
  {
    var j: nat, k: Kind :| j < call.maxfdp1 && j < |socks| && socks[j].waiting == 0xFF && j in call.Watched(k);
    WantsMeans(call, j);
  }

  // ---------- A call from its beginning to the event it waits for ----------

  /** Something happens on a socket. */
  predicate Positive(event: Event) { event.RcvPlus? || event.SendPlus? || event.Error? }

  lemma RaisedNow(st: State, e: nat, s: nat, event: Event)
    requires st.callbacks == map[]
    ensures Next(st, Raise(e, s, event)) == st.(callbacks := map[e := Callback.Raised(s, event)])
  {
  }

  lemma WalkBegins(st: State, e: nat, s: nat, event: Event)
    requires st.callbacks == map[e := Callback.Raised(s, event)] && s < |st.socks| && 0 < st.socks[s].waiting
    requires Positive(event) && !st.socks[s].Ready(KindOf(event)) && (event.RcvPlus? ==> 0 <= st.socks[s].rcvevent)
    ensures var st' := Next(st, EventStep(e));
      && st'.calls == st.calls && st'.list == st.list && st'.generation == st.generation
      && e in st'.callbacks && st'.callbacks[e].Walking? && st'.callbacks[e].s == s && KindOf(event) in st'.callbacks[e].flags
      && st'.callbacks[e].last == st'.generation && st'.callbacks[e].next == 0
  {
  }

  lemma FirstIsTold(st: State, e: nat, t: nat, k: Kind)
    requires e in st.callbacks && st.callbacks[e].Walking? && k in st.callbacks[e].flags
    requires st.callbacks[e].last == st.generation && st.callbacks[e].next == 0
    requires st.list != [] && st.list[0] == t && t in st.calls && !st.calls[t].signalled && st.callbacks[e].s in st.calls[t].Watched(k)
    ensures var st' := Next(st, EventStep(e));
      t in st'.calls && st'.calls[t] == st.calls[t].(signalled := true, sem := st.calls[t].sem + 1)
  {
  }

  lemma SleeperIs(st: State, t: nat, s: nat, k: Kind)
    requires t in st.calls && Begins(st.calls[t]) && s < st.calls[t].maxfdp1 && s < |st.socks| && s in st.calls[t].Watched(k)
    ensures var a := Asleep(st, t);
      && t in a.calls && a.list != [] && a.list[0] == t && a.callbacks == st.callbacks && |a.socks| == |st.socks|
      && a.calls[t] == st.calls[t].(place := Waiting) && 0 < a.socks[s].waiting
      && a.socks[s].(waiting := 0) == st.socks[s].(waiting := 0)
  {
    WantsMeans(st.calls[t], s);
  }

  /** Three steps of a callback tell the call at the head of the list. */
  lemma EventTells(st: State, e: nat, t: nat, s: nat, event: Event)
    requires st.callbacks == map[] && st.list != [] && st.list[0] == t && t in st.calls && !st.calls[t].signalled
    requires s < |st.socks| && 0 < st.socks[s].waiting && s in st.calls[t].Watched(KindOf(event))
    requires Positive(event) && !st.socks[s].Ready(KindOf(event)) && (event.RcvPlus? ==> 0 <= st.socks[s].rcvevent)
    ensures var told := Run(st, [Raise(e, s, event), EventStep(e), EventStep(e)]);
      t in told.calls && told.calls[t] == st.calls[t].(signalled := true, sem := st.calls[t].sem + 1)
  {
    hide Next, Run, Positive;
    RunThree(st, Raise(e, s, event), EventStep(e), EventStep(e));
    RaisedNow(st, e, s, event);
    var r := Next(st, Raise(e, s, event));
    WalkBegins(r, e, s, event);
    FirstIsTold(Next(r, EventStep(e)), e, t, KindOf(event));
  }

  lemma CallBegins(st: State, t: nat, call: Call)
    requires t !in st.calls && Begins(call) && st.callbacks == map[]
    ensures var b := st.(calls := st.calls[t := call]); Run(st, [CallSelect(t, call)]) == b && !CoreLocked(b)
  {
    hide HoldsCoreLock;
    assert [CallSelect(t, call)][..0] == [] && Run(st, []) == st;
  }

  lemma CallsAndSleeps(st: State, t: nat, call: Call)
    requires t !in st.calls && Begins(call) && !call.noWait && st.callbacks == map[]
    requires !SeesEvent(call, st.socks) && !BadDescriptor(call, st.socks) && !CounterFull(call, st.socks)
    ensures Run(st, [CallSelect(t, call)] + Own(t, 3 * call.maxfdp1 + 4)) == Asleep(st.(calls := st.calls[t := call]), t)
  {
    hide *;
    CallBegins(st, t, call);
    FallsAsleep(st.(calls := st.calls[t := call]), t);
    RunBoth(st, [CallSelect(t, call)], Own(t, 3 * call.maxfdp1 + 4));
  }

  /** A call that finds nothing goes to sleep, and the next event it waits for signals it. */
  lemma EventWakesTheCall(st: State, t: nat, call: Call, e: nat, s: nat, event: Event)
    requires t !in st.calls && Begins(call) && !call.noWait && st.callbacks == map[] && Positive(event)
    requires !SeesEvent(call, st.socks) && !BadDescriptor(call, st.socks) && !CounterFull(call, st.socks)
    requires s < call.maxfdp1 && s < |st.socks| && s in call.Watched(KindOf(event)) && (event.RcvPlus? ==> 0 <= st.socks[s].rcvevent)
    ensures var asleep := Run(st, [CallSelect(t, call)] + Own(t, 3 * call.maxfdp1 + 4));
      && t in asleep.calls && asleep.calls[t] == call.(place := Waiting)
      && var told := Run(asleep, [Raise(e, s, event), EventStep(e), EventStep(e)]);
         t in told.calls && told.calls[t] == call.(place := Waiting, signalled := true, sem := 1)
  {
    var b := st.(calls := st.calls[t := call]);
    NotReady(call, st.socks, s, KindOf(event));
    CallsAndSleeps(st, t, call);
    SleeperIs(b, t, s, KindOf(event));
    hide Run, Own, Next, SeesEvent, BadDescriptor, CounterFull, Asleep, Positive;
    EventTells(Asleep(b, t), e, t, s, event);
  }

  lemma NotReady(call: Call, socks: seq<Sock>, s: nat, k: Kind)
    requires !SeesEvent(call, socks) && s < call.maxfdp1 && s < |socks| && s in call.Watched(k)
    ensures !socks[s].Ready(k)
  {
    assert !socks[s].Scanned(k);
  }

  lemma RunThree(st: State, a: Action, b: Action, c: Action)
    ensures Run(st, [a, b, c]) == Next(Next(Next(st, a), b), c)
  {
    hide Next;
    assert [a, b, c][..2] == [a, b] && [a, b][..1] == [a] && [a][..0] == [];
    assert Run(st, []) == st && Run(st, [a]) == Next(st, a) && Run(st, [a, b]) == Next(Next(st, a), b);
  }
}
