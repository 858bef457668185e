/** Safety of the select protocol over every interleaving: no lost wakeup, and exact counts. */
module SelectProofs {
  import opened Select

  // ---------- The list ----------

  ghost predicate Distinct(list: seq<nat>) {
    forall i, j :: 0 <= i < j < |list| ==> list[i] != list[j]
  }

  lemma {:induction false} WithoutSpec(list: seq<nat>, t: nat)
    requires Distinct(list)
    ensures Distinct(Without(list, t))
    ensures forall x :: x in Without(list, t) <==> x in list && x != t
  {
    if list != [] {
      var rest := list[1..];
      assert Distinct(rest);
      WithoutSpec(rest, t);
      assert list == [list[0]] + rest;
      if list[0] != t {
        var r := Without(rest, t);
        assert Without(list, t) == [list[0]] + r;
        assert list[0] !in r;
      }
    }
  }

  // ---------- The invariant ----------

  /** Exactly the calls that are past linking are on the list, each once. */
  ghost predicate ListOk(st: State) {
    && Distinct(st.list)
    && forall t :: t in st.list <==> t in st.calls && st.calls[t].Linked()
  }

  ghost function Counters(calls: map<nat, Call>, s: nat): set<nat> {
    set t | t in calls && calls[t].Counts(s)
  }

  /** select_waiting of a socket is the number of calls counted on it. */
  ghost predicate CountsOk(st: State) {
    forall s: nat :: s < |st.socks| ==>
      st.socks[s].waiting == |Counters(st.calls, s)| && st.socks[s].waiting < 0x100
  }

  /** A call that has raised counters did so on sockets that exist. */
  ghost predicate PlaceOk(st: State, call: Call) {
    && (call.place.Uncounting? ==> call.place.limit <= call.maxfdp1)
    && (forall s: nat :: call.Counts(s) ==> s < |st.socks|)
  }

  ghost predicate CallsOk(st: State) {
    forall t :: t in st.calls ==> PlaceOk(st, st.calls[t])
  }

  ghost predicate CallbacksOk(st: State) {
    && (forall e :: e in st.callbacks && st.callbacks[e].Walking? ==> st.callbacks[e].last <= st.generation)
    && (st.coreLocking ==> forall e, e' ::
          e in st.callbacks && e' in st.callbacks && HoldsCoreLock(st.callbacks[e]) && HoldsCoreLock(st.callbacks[e'])
          ==> e == e')
  }

  /** Callback e will still visit call t and tell it that event k happened on socket s. */
  ghost predicate WillVisit(st: State, e: nat, t: nat, s: nat, k: Kind) {
    && e in st.callbacks && st.callbacks[e].Walking?
    && st.callbacks[e].s == s && k in st.callbacks[e].flags
    && (st.callbacks[e].last == st.generation ==> forall i :: 0 <= i < st.callbacks[e].next && i < |st.list| ==> st.list[i] != t)
  }

  /** Call t relies on hearing about event k of socket s, which is there, and has not heard of it. */
  ghost predicate Uninformed(st: State, t: nat, s: nat, k: Kind) {
    && t in st.calls && s < |st.socks|
    && st.calls[t].Relies(s) && s in st.calls[t].Watched(k)
    && st.socks[s].Ready(k) && !st.calls[t].signalled
  }

  ghost predicate Pending(st: State, t: nat, s: nat, k: Kind) {
    exists e :: WillVisit(st, e, t, s, k)
  }

  ghost predicate NoLostWakeup(st: State) {
    forall t: nat, s: nat, k: Kind :: Uninformed(st, t, s, k) ==> Pending(st, t, s, k)
  }

  /** A signalled call has its semaphore raised until it waits for it. */
  ghost predicate SemOk(st: State) {
    forall t :: t in st.calls ==>
      var call := st.calls[t];
      (call.signalled ==> call.Linked()) &&
      (call.place.FirstScan? || call.place.Linking? || call.place.Counting? || call.place.SecondScan? || call.place.Waiting?
       ==> call.sem == if call.signalled then 1 else 0)
  }

  ghost predicate Inv(st: State) {
    ListOk(st) && CountsOk(st) && CallsOk(st) && CallbacksOk(st) && NoLostWakeup(st) && SemOk(st)
  }

  // ---------- Preservation: counters ----------

  lemma SameCounters(calls: map<nat, Call>, calls': map<nat, Call>, s: nat)
    requires forall t :: (t in calls && calls[t].Counts(s)) <==> (t in calls' && calls'[t].Counts(s))
    ensures Counters(calls', s) == Counters(calls, s)
  {
  }

  lemma OneMoreCounter(calls: map<nat, Call>, calls': map<nat, Call>, s: nat, t: nat)
    requires t !in Counters(calls, s)
    requires forall u :: (u in calls' && calls'[u].Counts(s)) <==> u == t || (u in calls && calls[u].Counts(s))
    ensures |Counters(calls', s)| == |Counters(calls, s)| + 1
  {
    assert Counters(calls', s) == Counters(calls, s) + {t};
  }

  lemma OneCounterLess(calls: map<nat, Call>, calls': map<nat, Call>, s: nat, t: nat)
    requires t in Counters(calls, s)
    requires forall u :: (u in calls' && calls'[u].Counts(s)) <==> u != t && (u in calls && calls[u].Counts(s))
    ensures |Counters(calls', s)| == |Counters(calls, s)| - 1
  {
    assert Counters(calls', s) == Counters(calls, s) - {t};
  }

  // ---------- Preservation: a step that only moves one call on ----------

  /** A step of call t that changes nothing but its place, its semaphore, and possibly a counter. */
  ghost predicate Moves(st: State, st': State, t: nat) {
    && t in st.calls
    && st'.coreLocking == st.coreLocking && st'.list == st.list && st'.generation == st.generation
    && st'.callbacks == st.callbacks && |st'.socks| == |st.socks|
    && (forall s: nat :: s < |st.socks| ==> st'.socks[s].(waiting := 0) == st.socks[s].(waiting := 0))
    && st'.calls.Keys == st.calls.Keys
    && (forall u :: u in st.calls && u != t ==> st'.calls[u] == st.calls[u])
    && st'.calls[t].(place := st.calls[t].place, sem := st.calls[t].sem) == st.calls[t]
  }

  /** Moving on keeps the promise if the call newly relies only on sockets it has just seen idle. */
  lemma MovesKeepsPromise(st: State, st': State, t: nat)
    requires Moves(st, st', t) && NoLostWakeup(st)
    requires forall s: nat :: s < |st.socks| && st'.calls[t].Relies(s) ==>
      st.calls[t].Relies(s) || (forall k: Kind :: s in st.calls[t].Watched(k) ==> !st.socks[s].Ready(k))
    ensures NoLostWakeup(st')
  {
    forall u: nat, s: nat, k: Kind | Uninformed(st', u, s, k) ensures Pending(st', u, s, k) {
      assert st'.socks[s].(waiting := 0) == st.socks[s].(waiting := 0);
      assert st.socks[s].Ready(k);
      if u == t {
        var call, call' := st.calls[t], st'.calls[t];
        assert call'.(place := call.place, sem := call.sem) == call;
        assert call.Watched(k) == call'.Watched(k) && call.signalled == call'.signalled;
        assert call.Relies(s);
      }
      assert Uninformed(st, u, s, k);
      var e :| WillVisit(st, e, u, s, k);
      assert WillVisit(st', e, u, s, k);
    }
  }

  lemma MovesKeepsRest(st: State, st': State, t: nat)
    requires Moves(st, st', t) && ListOk(st) && CallbacksOk(st) && CallsOk(st)
    requires st'.calls[t].Linked() == st.calls[t].Linked() && PlaceOk(st', st'.calls[t])
    ensures ListOk(st') && CallbacksOk(st') && CallsOk(st')
  {
    forall u | u in st'.calls && u != t ensures PlaceOk(st', st'.calls[u]) {
      assert PlaceOk(st, st.calls[u]);
    }
  }

  lemma MovesKeepsCounts(st: State, st': State, t: nat)
    requires Moves(st, st', t) && CountsOk(st) && st'.socks == st.socks
    requires forall s: nat :: s < |st.socks| ==> st'.calls[t].Counts(s) == st.calls[t].Counts(s)
    ensures CountsOk(st')
  {
    forall s: nat | s < |st.socks| ensures Counters(st'.calls, s) == Counters(st.calls, s) {
      SameCounters(st.calls, st'.calls, s);
    }
  }

  /** Call t counts itself on socket i. */
  lemma CountUp(st: State, st': State, t: nat, i: nat)
    requires Moves(st, st', t) && CountsOk(st) && i < |st.socks| && st.socks[i].waiting + 1 < 0x100
    requires st'.socks == st.socks[i := st.socks[i].(waiting := st.socks[i].waiting + 1)]
    requires forall s: nat :: s < |st.socks| ==>
      (st'.calls[t].Counts(s) <==> s == i || st.calls[t].Counts(s))
    requires !st.calls[t].Counts(i)
    ensures CountsOk(st')
  {
    forall s: nat | s < |st'.socks|
      ensures st'.socks[s].waiting == |Counters(st'.calls, s)| && st'.socks[s].waiting < 0x100
    {
      if s == i {
        OneMoreCounter(st.calls, st'.calls, s, t);
      } else {
        SameCounters(st.calls, st'.calls, s);
      }
    }
  }

  lemma CountDown(st: State, st': State, t: nat, i: nat)
    requires Moves(st, st', t) && CountsOk(st) && i < |st.socks| && 0 < st.socks[i].waiting
    requires st'.socks == st.socks[i := st.socks[i].(waiting := st.socks[i].waiting - 1)]
    requires forall s: nat :: s < |st.socks| ==>
      (st'.calls[t].Counts(s) <==> s != i && st.calls[t].Counts(s))
    requires st.calls[t].Counts(i)
    ensures CountsOk(st')
  {
    forall s: nat | s < |st'.socks|
      ensures st'.socks[s].waiting == |Counters(st'.calls, s)| && st'.socks[s].waiting < 0x100
    {
      if s == i {
        OneCounterLess(st.calls, st'.calls, s, t);
      } else {
        SameCounters(st.calls, st'.calls, s);
      }
    }
  }

  /** Moves to a place that relies on nothing new, is as linked as before and counts the same. */
  lemma PlainMove(st: State, t: nat, place: Place)
    requires Inv(st) && t in st.calls
    requires var call, call' := st.calls[t], st.calls[t].(place := place);
      && call'.Linked() == call.Linked()
      && (place.Uncounting? ==> place.limit <= call.maxfdp1)
      && (forall s: nat :: call'.Counts(s) == call.Counts(s))
      && (forall s: nat :: s < |st.socks| && call'.Relies(s) ==>
           (call.Relies(s) || forall k: Kind :: s in call.Watched(k) ==> !st.socks[s].Ready(k)))
      && (place.FirstScan? || place.Linking? || place.Counting? || place.SecondScan? || place.Waiting? ==>
            !call.place.Uncounting? && !call.place.Unlinking?)
    ensures Inv(At(st, t, place))
  {
    var st' := At(st, t, place);
    hide Inv;
    assert ListOk(st) && CountsOk(st) && CallsOk(st) && CallbacksOk(st) && NoLostWakeup(st) && SemOk(st) by {
      InvParts(st);
    }
    assert PlaceOk(st, st.calls[t]);
    MovesKeepsRest(st, st', t);
    MovesKeepsCounts(st, st', t);
    MovesKeepsPromise(st, st', t);
    assert SemOk(st');
    PartsInv(st');
  }

  lemma InvParts(st: State)
    requires Inv(st)
    ensures ListOk(st) && CountsOk(st) && CallsOk(st) && CallbacksOk(st) && NoLostWakeup(st) && SemOk(st)
  {
    hide ListOk, CountsOk, CallsOk, CallbacksOk, NoLostWakeup, SemOk;
  }

  lemma PartsInv(st: State)
    requires ListOk(st) && CountsOk(st) && CallsOk(st) && CallbacksOk(st) && NoLostWakeup(st) && SemOk(st)
    ensures Inv(st)
  {
    hide ListOk, CountsOk, CallsOk, CallbacksOk, NoLostWakeup, SemOk;
  }

  // ---------- Preservation: the steps of lwip_select ----------

  /** A socket on which a scan counts nothing is not ready for anything the call watches. */
  lemma NoHitsIsIdle(call: Call, i: nat, so: Sock)
    requires Hits(call, i, so) == 0
    ensures forall k: Kind :: i in call.Watched(k) ==> !so.Ready(k)
  {
  }

  lemma FirstScanInv(st: State, t: nat, timeout: bool)
    requires Inv(st) && t in st.calls && st.calls[t].place.FirstScan?
    ensures Inv(SelectStepAt(st, t, timeout))
  {
    hide Inv;
    var call := st.calls[t];
    var FirstScan(i, nready) := call.place;
    if call.maxfdp1 <= i {
      if 0 < nready || call.noWait { LeaveInv(st, t); } else { PlainMove(st, t, Linking); }
    } else if !call.Wants(i) {
      PlainMove(st, t, FirstScan(i + 1, nready));
    } else if |st.socks| <= i {
      LeaveInv(st, t);
    } else {
      PlainMove(st, t, FirstScan(i + 1, nready + Hits(call, i, st.socks[i])));
    }
  }

  /** A call that is not on the list goes away. */
  lemma LeaveInv(st: State, t: nat)
    requires Inv(st) && t in st.calls && !st.calls[t].Linked()
    ensures Inv(Leave(st, t))
  {
    var st' := Leave(st, t);
    forall s: nat | s < |st.socks| { SameCounters(st.calls, st'.calls, s); }
    forall u: nat, s: nat, k: Kind | Uninformed(st', u, s, k) ensures Pending(st', u, s, k) {
      assert Uninformed(st, u, s, k);
      var e :| WillVisit(st, e, u, s, k);
      assert WillVisit(st', e, u, s, k);
    }
    assert forall u :: u in st'.calls ==> PlaceOk(st, st.calls[u]);
  }

  lemma LinkingInv(st: State, t: nat, timeout: bool)
    requires Inv(st) && t in st.calls && st.calls[t].place.Linking?
    ensures Inv(SelectStepAt(st, t, timeout))
  {
    if !(st.coreLocking && CoreLocked(st)) {
      var st' := SelectStepAt(st, t, timeout);
      forall s: nat | s < |st.socks| { SameCounters(st.calls, st'.calls, s); }
      ListChangeKeepsPromise(st, st', t);
      assert Distinct(st'.list);
      forall u | u in st'.calls ensures PlaceOk(st', st'.calls[u]) {
        assert u != t ==> PlaceOk(st, st.calls[u]);
      }
      assert SemOk(st');
    }
  }

  /** A change of the list restarts every walk; with core locking there is none. */
  lemma ListChangeKeepsPromise(st: State, st': State, t: nat)
    requires NoLostWakeup(st) && CallbacksOk(st) && t in st.calls
    requires st'.socks == st.socks && st'.callbacks == st.callbacks && st'.coreLocking == st.coreLocking
    requires st'.generation == Bumped(st) && (st.coreLocking ==> !CoreLocked(st))
    requires forall u :: u != t && u in st'.calls ==> u in st.calls && st'.calls[u] == st.calls[u]
    requires t in st'.calls ==> forall s :: !st'.calls[t].Relies(s)
    ensures NoLostWakeup(st') && CallbacksOk(st')
  {
    forall u: nat, s: nat, k: Kind | Uninformed(st', u, s, k) ensures Pending(st', u, s, k) {
      assert Uninformed(st, u, s, k);
      var e :| WillVisit(st, e, u, s, k);
      assert HoldsCoreLock(st.callbacks[e]);
      assert WillVisit(st', e, u, s, k);
    }
  }

  lemma CountingInv(st: State, t: nat, timeout: bool)
    requires Inv(st) && t in st.calls && st.calls[t].place.Counting?
    ensures Inv(SelectStepAt(st, t, timeout))
  {
    hide Inv, ListOk, CallsOk, CallbacksOk, NoLostWakeup, SemOk;
    InvParts(st);
    var call := st.calls[t];
    var i := call.place.i;
    if call.maxfdp1 <= i {
      PlainMove(st, t, SecondScan(0, 0));
    } else if !call.Wants(i) {
      PlainMove(st, t, Counting(i + 1));
    } else if |st.socks| <= i || st.socks[i].waiting + 1 == 0x100 {
      PlainMove(st, t, Uncounting(0, i));
    } else {
      var st' := SelectStepAt(st, t, timeout);
      CounterMoveInv(st, st', t);
      CountUp(st, st', t, i);
      PartsInv(st');
    }
  }

  lemma CounterMoveInv(st: State, st': State, t: nat)
    requires Inv(st) && Moves(st, st', t)
    requires var call, call' := st.calls[t], st'.calls[t];
      && ((call.place.Counting? && call'.place.Counting?) || (call.place.Uncounting? && call'.place.Uncounting?))
      && PlaceOk(st', call') && call'.sem == call.sem
    ensures ListOk(st') && CallbacksOk(st') && CallsOk(st') && NoLostWakeup(st') && SemOk(st')
  {
    MovesKeepsRest(st, st', t);
    MovesKeepsPromise(st, st', t);
  }

  lemma SecondScanInv(st: State, t: nat, timeout: bool)
    requires Inv(st) && t in st.calls && st.calls[t].place.SecondScan?
    ensures Inv(SelectStepAt(st, t, timeout))
  {
    hide Inv;
    var call := st.calls[t];
    var SecondScan(i, nready) := call.place;
    if call.maxfdp1 <= i {
      if nready == 0 { PlainMove(st, t, Waiting); } else { PlainMove(st, t, Uncounting(0, call.maxfdp1)); }
    } else if !call.Wants(i) {
      PlainMove(st, t, SecondScan(i + 1, nready));
    } else if |st.socks| <= i {
      PlainMove(st, t, Uncounting(0, call.maxfdp1));
    } else {
      if Hits(call, i, st.socks[i]) == 0 { NoHitsIsIdle(call, i, st.socks[i]); }
      PlainMove(st, t, SecondScan(i + 1, nready + Hits(call, i, st.socks[i])));
    }
  }

  lemma WaitingInv(st: State, t: nat, timeout: bool)
    requires Inv(st) && t in st.calls && st.calls[t].place.Waiting?
    ensures Inv(SelectStepAt(st, t, timeout))
  {
    var call := st.calls[t];
    if 0 < call.sem {
      var st' := SelectStepAt(st, t, timeout);
      assert PlaceOk(st, call);
      assert forall s: nat :: st'.calls[t].Counts(s) == call.Counts(s);
      MovesKeepsRest(st, st', t);
      MovesKeepsCounts(st, st', t);
      MovesKeepsPromise(st, st', t);
      assert SemOk(st');
    } else if timeout && call.mayTimeOut {
      PlainMove(st, t, Uncounting(0, call.maxfdp1));
    }
  }

  /** Some call waits on a socket that a call is counted on. */
  lemma CountedWaits(st: State, t: nat, s: nat)
    requires CountsOk(st) && s < |st.socks| && t in st.calls && st.calls[t].Counts(s)
    ensures 0 < st.socks[s].waiting
  {
    assert t in Counters(st.calls, s);
  }

  lemma CountedDown(st: State, t: nat, timeout: bool)
    requires Inv(st) && t in st.calls && st.calls[t].place.Uncounting? && st.calls[t].place.i < st.calls[t].place.limit
    requires var i := st.calls[t].place.i; i < |st.socks| && st.calls[t].Counts(i) && 0 < st.socks[i].waiting
    ensures Inv(SelectStepAt(st, t, timeout))
  {
    var call, i := st.calls[t], st.calls[t].place.i;
    var st' := SelectStepAt(st, t, timeout);
    InvParts(st);
    assert PlaceOk(st, call);
    assert forall s: nat :: st'.calls[t].Counts(s) == (call.Counts(s) && s != i);
    assert Moves(st, st', t);
    hide SelectStepAt, Inv;
    CounterMoveInv(st, st', t);
    CountDown(st, st', t, i);
    PartsInv(st');
  }

  lemma UncountingInv(st: State, t: nat, timeout: bool)
    requires Inv(st) && t in st.calls && st.calls[t].place.Uncounting?
    ensures Inv(SelectStepAt(st, t, timeout))
  {
    hide Inv, Moves, Without, Bumped, CoreLocked, CountsOk;
    var call := st.calls[t];
    var Uncounting(i, limit) := call.place;
    InvParts(st);
    assert PlaceOk(st, call);
    if limit <= i {
      PlainMove(st, t, Unlinking);
    } else if !call.Wants(i) {
      PlainMove(st, t, Uncounting(i + 1, limit));
    } else {
      assert call.Counts(i);
      CountedWaits(st, t, i);
      CountedDown(st, t, timeout);
    }
  }

  lemma UnlinkingInv(st: State, t: nat, timeout: bool)
    requires Inv(st) && t in st.calls && st.calls[t].place.Unlinking?
    ensures Inv(SelectStepAt(st, t, timeout))
  {
    if !(st.coreLocking && CoreLocked(st)) {
      var st' := SelectStepAt(st, t, timeout);
      forall s: nat | s < |st.socks| { SameCounters(st.calls, st'.calls, s); }
      ListChangeKeepsPromise(st, st', t);
      WithoutSpec(st.list, t);
      forall u | u in st'.calls ensures PlaceOk(st', st'.calls[u]) { assert PlaceOk(st, st.calls[u]); }
      assert SemOk(st');
    }
  }

  lemma SelectStepInv(st: State, t: nat, timeout: bool)
    requires Inv(st) && t in st.calls
    ensures Inv(SelectStepAt(st, t, timeout))
  {
    hide Inv, SelectStepAt;
    match st.calls[t].place
    case FirstScan(_, _) => FirstScanInv(st, t, timeout);
    case Linking => LinkingInv(st, t, timeout);
    case Counting(_) => CountingInv(st, t, timeout);
    case SecondScan(_, _) => SecondScanInv(st, t, timeout);
    case Waiting => WaitingInv(st, t, timeout);
    case Uncounting(_, _) => UncountingInv(st, t, timeout);
    case Unlinking => UnlinkingInv(st, t, timeout);
  }

  // ---------- Preservation: event_callback ----------

  lemma RaiseInv(st: State, e: nat, s: nat, event: Event)
    requires Inv(st)
    ensures Inv(Next(st, Raise(e, s, event)))
  {
    var st' := Next(st, Raise(e, s, event));
    if st' != st {
      forall u: nat, i: nat, k: Kind | Uninformed(st', u, i, k) ensures Pending(st', u, i, k) {
        assert Uninformed(st, u, i, k);
        var e' :| WillVisit(st, e', u, i, k);
        assert WillVisit(st', e', u, i, k);
      }
      assert forall t :: t in st'.calls ==> PlaceOk(st, st'.calls[t]);
    }
  }

  lemma LastdataInv(st: State, s: nat, present: bool)
    requires Inv(st)
    ensures Inv(Next(st, SetLastdata(s, present)))
  {
    var st' := Next(st, SetLastdata(s, present));
    forall u: nat, i: nat, k: Kind | Uninformed(st', u, i, k) ensures Pending(st', u, i, k) {
      assert Uninformed(st, u, i, k);
      var e' :| WillVisit(st, e', u, i, k);
      assert WillVisit(st', e', u, i, k);
    }
    forall t | t in st'.calls ensures PlaceOk(st', st'.calls[t]) { assert PlaceOk(st, st.calls[t]); }
  }

  /** The protected section of event_callback: an event that newly makes the socket ready
      while some call is counted on it starts a walk that carries this event. */
  lemma RaisedPlaces(st: State, e: nat)
    requires CallsOk(st) && e in st.callbacks && st.callbacks[e].Raised?
    ensures CallsOk(EventStepAt(st, e))
  {
    var st' := EventStepAt(st, e);
    forall t | t in st'.calls ensures PlaceOk(st', st'.calls[t]) { assert PlaceOk(st, st.calls[t]); }
  }

  lemma RaisedLists(st: State, e: nat)
    requires ListOk(st) && CountsOk(st) && CallbacksOk(st) && SemOk(st) && e in st.callbacks && st.callbacks[e].Raised?
    ensures var st' := EventStepAt(st, e); ListOk(st') && CountsOk(st') && CallbacksOk(st') && SemOk(st')
  {
    hide Counters, Flags;
  }

  lemma RaisedInv(st: State, e: nat)
    requires Inv(st) && e in st.callbacks && st.callbacks[e].Raised?
    ensures Inv(EventStepAt(st, e))
  {
    hide Inv, Uninformed, Pending, PlaceOk;
    var st' := EventStepAt(st, e);
    InvParts(st);
    RaisedPlaces(st, e);
    RaisedLists(st, e);
    forall u: nat, i: nat, k: Kind | Uninformed(st', u, i, k) ensures Pending(st', u, i, k) {
      RaisedKeepsPromise(st, e, u, i, k);
    }
    hide ListOk, CountsOk, CallsOk, CallbacksOk, SemOk, EventStepAt;
    PartsInv(st');
  }

  lemma ReadyFlags(so: Sock, k: Kind)
    ensures k in Flags(so) <==> so.Ready(k)
  {
  }

  lemma RaisedKeepsPromise(st: State, e: nat, u: nat, i: nat, k: Kind)
    requires Inv(st) && e in st.callbacks && st.callbacks[e].Raised?
    requires Uninformed(EventStepAt(st, e), u, i, k)
    ensures Pending(EventStepAt(st, e), u, i, k)
  {
    hide ListOk, CallsOk, CallbacksOk, SemOk, Flags;
    var st' := EventStepAt(st, e);
    var Raised(s, event) := st.callbacks[e];
    if Uninformed(st, u, i, k) {
      var e' :| WillVisit(st, e', u, i, k);
      assert WillVisit(st', e', u, i, k);
    } else {
      // the event made the socket ready just now
      assert i == s && !st.socks[s].Ready(k) && st'.socks[s].Ready(k);
      assert CheckWaiters(st.socks[s], event);
      assert st.calls[u].Counts(s);
      CountedWaits(st, u, s);
      ReadyFlags(st'.socks[s], k);
      assert WillVisit(st', e, u, i, k);
    }
  }

  /** A visit changes at most whether the visited call is signalled. */
  lemma VisitedKeeps(calls: map<nat, Call>, t: nat, s: nat, flags: set<Kind>, u: nat)
    requires u in calls
    ensures u in Visited(calls, t, s, flags)
    ensures var call' := Visited(calls, t, s, flags)[u];
      && call'.Linked() == calls[u].Linked() && call'.place == calls[u].place
      && call'.maxfdp1 == calls[u].maxfdp1 && forall i: nat :: call'.Counts(i) == calls[u].Counts(i)
  {
  }

  lemma WalkCallsOk(st: State, e: nat)
    requires Inv(st) && e in st.callbacks && st.callbacks[e].Walking?
    ensures var st' := EventStepAt(st, e); CallsOk(st') && CountsOk(st') && ListOk(st')
  {
    var st' := EventStepAt(st, e);
    var Walking(s0, flags, last, next) := st.callbacks[e];
    var n := if last != st.generation then 0 else next;
    if n < |st.list| {
      forall u | u in st.calls { VisitedKeeps(st.calls, st.list[n], s0, flags, u); }
      hide Visited;
      assert st'.calls.Keys == st.calls.Keys by { VisitedKeys(st.calls, st.list[n], s0, flags); }
      forall t | t in st'.calls ensures PlaceOk(st', st'.calls[t]) {
        assert PlaceOk(st, st.calls[t]);
        VisitedKeeps(st.calls, st.list[n], s0, flags, t);
      }
      forall s: nat | s < |st.socks| ensures Counters(st'.calls, s) == Counters(st.calls, s) {
        SameCounters(st.calls, st'.calls, s);
      }
    }
  }

  lemma VisitedKeys(calls: map<nat, Call>, t: nat, s: nat, flags: set<Kind>)
    ensures Visited(calls, t, s, flags).Keys == calls.Keys
  {
  }

  /** One visit of select_check_waiters. */
  lemma WalkingInv(st: State, e: nat)
    requires Inv(st) && e in st.callbacks && st.callbacks[e].Walking?
    ensures Inv(EventStepAt(st, e))
  {
    var st' := EventStepAt(st, e);
    WalkCallsOk(st, e);
    InvParts(st);
    forall u: nat, i: nat, k: Kind | Uninformed(st', u, i, k) ensures Pending(st', u, i, k) {
      WalkKeepsPromise(st, e, u, i, k);
    }
    hide Inv, Uninformed, Pending, CountsOk, CallsOk;
    assert CallbacksOk(st');
    assert SemOk(st');
    PartsInv(st');
  }

  lemma WalkKeepsPromise(st: State, e: nat, u: nat, i: nat, k: Kind)
    requires Inv(st) && e in st.callbacks && st.callbacks[e].Walking?
    requires Uninformed(EventStepAt(st, e), u, i, k)
    ensures Pending(EventStepAt(st, e), u, i, k)
  {
    hide CountsOk, CallsOk, CallbacksOk, SemOk, Flags, Updated, CheckWaiters;
    var st' := EventStepAt(st, e);
    assert Uninformed(st, u, i, k);
    var e' :| WillVisit(st, e', u, i, k);
    if e' == e {
      var Walking(s, flags, last, next) := st.callbacks[e];
      var n := if last != st.generation then 0 else next;
      assert u in st.list;
      var j :| 0 <= j < |st.list| && st.list[j] == u;
      assert n <= j;
      // had the visit been to u, it would have been told
      assert st.list[n] != u;
    }
    assert WillVisit(st', e', u, i, k);
  }

  lemma NextInv(st: State, a: Action)
    requires Inv(st)
    ensures Inv(Next(st, a))
  {
    hide Inv, SelectStepAt, EventStepAt;
    match a
    case CallSelect(t, call) => CallSelectInv(st, t, call);
    case SelectStep(t, timeout) => if t in st.calls { SelectStepInv(st, t, timeout); }
    case Raise(e, s, event) => RaiseInv(st, e, s, event);
    case EventStep(e) =>
      if e in st.callbacks {
        if st.callbacks[e].Raised? { RaisedInv(st, e); } else { WalkingInv(st, e); }
      }
    case SetLastdata(s, present) => LastdataInv(st, s, present);
  }

  lemma CallSelectInv(st: State, t: nat, call: Call)
    requires Inv(st)
    ensures Inv(Next(st, CallSelect(t, call)))
  {
    var st' := Next(st, CallSelect(t, call));
    if st' != st {
      forall s: nat | s < |st.socks| { SameCounters(st.calls, st'.calls, s); }
      forall u: nat, i: nat, k: Kind | Uninformed(st', u, i, k) ensures Pending(st', u, i, k) {
        assert Uninformed(st, u, i, k);
        var e' :| WillVisit(st, e', u, i, k);
        assert WillVisit(st', e', u, i, k);
      }
      forall u | u in st'.calls ensures PlaceOk(st', st'.calls[u]) {
        if u != t { assert PlaceOk(st, st.calls[u]); }
      }
    }
  }

  // ---------- What every interleaving promises ----------

  lemma {:induction false} RunInv(st: State, actions: seq<Action>)
    requires Initial(st)
    ensures Inv(Run(st, actions))
  {
    if actions == [] {
      forall s: nat | s < |st.socks| ensures Counters(st.calls, s) == {} {}
      assert Inv(st);
    } else {
      hide Inv, Next;
      RunInv(st, actions[..|actions| - 1]);
      NextInv(Run(st, actions[..|actions| - 1]), actions[|actions| - 1]);
    }
  }

  /** No wakeup is lost: in every interleaving, a call that sleeps without having been
      signalled although a socket it watches has the event it waits for will still be
      visited by a walk that brings it this event. Once no callback is running any more,
      there is no such call. */
  lemma NoWakeupIsLost(st: State, actions: seq<Action>, t: nat, s: nat, k: Kind)
    requires Initial(st)
    requires var r := Run(st, actions);
      && t in r.calls && r.calls[t].place.Waiting? && r.calls[t].sem == 0
      && s < |r.socks| && s < r.calls[t].maxfdp1 && s in r.calls[t].Watched(k) && r.socks[s].Ready(k)
    ensures Pending(Run(st, actions), t, s, k)
    ensures Run(st, actions).callbacks != map[]
  {
    RunInv(st, actions);
    var r := Run(st, actions);
    assert Uninformed(r, t, s, k);
    var e :| WillVisit(r, e, t, s, k);
  }

  /** select_waiting is always the number of calls counted on the socket; with no call
      in progress it is back at 0, whatever way the calls took out. */
  lemma WaitingIsExact(st: State, actions: seq<Action>, s: nat)
    requires Initial(st) && s < |st.socks|
    ensures var r := Run(st, actions);
      && s < |r.socks| && r.socks[s].waiting == |Counters(r.calls, s)|
      && (r.calls == map[] ==> r.socks[s].waiting == 0)
  {
    RunInv(st, actions);
    RunSocks(st, actions);
  }

  lemma {:induction false} RunSocks(st: State, actions: seq<Action>)
    ensures |Run(st, actions).socks| == |st.socks|
  {
    hide Next;
    if actions != [] {
      RunSocks(st, actions[..|actions| - 1]);
      NextSocks(Run(st, actions[..|actions| - 1]), actions[|actions| - 1]);
    }
  }

  lemma NextSocks(st: State, a: Action)
    ensures |Next(st, a).socks| == |st.socks|
  {
  }
}
