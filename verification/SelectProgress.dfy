/** What moves in the wakeup protocol: a call of lwip_select goes on until it has left, unless it may not,
    and every event that makes a socket ready is announced. */
module SelectProgress {
  import opened Select
  import opened SelectProofs

  // ---------- A call ----------

  /** The call can do nothing now: someone holds the core lock it needs, or it sleeps. */
  ghost predicate Blocked(st: State, t: nat, timeout: bool)
    requires t in st.calls
  {
    var call := st.calls[t];
    || ((call.place.Linking? || call.place.Unlinking?) && st.coreLocking && CoreLocked(st))
    || (call.place.Waiting? && call.sem == 0 && !(timeout && call.mayTimeOut))
  }

  function Rest(limit: nat, i: nat): nat {
    if i < limit then limit - i else 0
  }

  /** The steps a call still has ahead of it at most. */
  function StepsLeft(call: Call): nat {
    var w := call.maxfdp1 + 2;
    match call.place
    case FirstScan(i, _) => 4 * w + 3 + Rest(call.maxfdp1, i)
    case Linking => 4 * w + 2
    case Counting(i) => 3 * w + 1 + Rest(call.maxfdp1, i)
    case SecondScan(i, _) => 2 * w + 1 + Rest(call.maxfdp1, i)
    case Waiting => 2 * w
    case Uncounting(i, limit) => 1 + Rest(limit, i)
    case Unlinking => 0
  }

  /** The call has left, or has fewer steps ahead of it. */
  predicate Closer(call: Call, st': State, t: nat) {
    t !in st'.calls || StepsLeft(st'.calls[t]) < StepsLeft(call)
  }

  /** A blocked call changes nothing; any other step brings its call closer to its end. */
  lemma CallMovesOn(st: State, t: nat, timeout: bool)
    requires t in st.calls
    ensures var st' := SelectStepAt(st, t, timeout);
      if Blocked(st, t, timeout) then st' == st else Closer(st.calls[t], st', t)
  {
    hide SelectStepAt, StepsLeft;
    match st.calls[t].place
    case FirstScan(_, _) => FirstScanMovesOn(st, t, timeout);
    case SecondScan(_, _) => SecondScanMovesOn(st, t, timeout);
    case Counting(_) => CountingMovesOn(st, t, timeout);
    case Uncounting(_, _) => UncountingMovesOn(st, t, timeout);
    case _ => WaitMovesOn(st, t, timeout);
  }

  lemma FirstScanMovesOn(st: State, t: nat, timeout: bool)
    requires t in st.calls && st.calls[t].place.FirstScan?
    ensures Closer(st.calls[t], SelectStepAt(st, t, timeout), t)
  {
    hide CoreLocked, Hits, Bumped, Without;
  }

  lemma AtCloser(st: State, t: nat, place: Place)
    requires t in st.calls
    ensures StepsLeft(st.calls[t].(place := place)) < StepsLeft(st.calls[t]) ==> Closer(st.calls[t], At(st, t, place), t)
  {
    hide StepsLeft;
  }

  lemma SecondScanSooner(call: Call, nready: nat)
    requires call.place.SecondScan?
    ensures StepsLeft(call.(place := Waiting)) < StepsLeft(call)
    ensures StepsLeft(call.(place := Uncounting(0, call.maxfdp1))) < StepsLeft(call)
    ensures call.place.i < call.maxfdp1 ==> StepsLeft(call.(place := SecondScan(call.place.i + 1, nready))) < StepsLeft(call)
  {
  }

  lemma CountingSooner(call: Call)
    requires call.place.Counting?
    ensures StepsLeft(call.(place := SecondScan(0, 0))) < StepsLeft(call)
    ensures call.place.i < call.maxfdp1 ==> StepsLeft(call.(place := Uncounting(0, call.place.i))) < StepsLeft(call)
    ensures call.place.i < call.maxfdp1 ==> StepsLeft(call.(place := Counting(call.place.i + 1))) < StepsLeft(call)
  {
  }

  lemma SecondScanMovesOn(st: State, t: nat, timeout: bool)
    requires t in st.calls && st.calls[t].place.SecondScan?
    ensures Closer(st.calls[t], SelectStepAt(st, t, timeout), t)
  {
    hide CoreLocked, Hits, Bumped, Without, StepsLeft, At;
    var call := st.calls[t];
    var i, m := call.place.i, call.maxfdp1;
    var n := call.place.nready + if i < |st.socks| then Hits(call, i, st.socks[i]) else 0;
    SecondScanSooner(call, call.place.nready);
    SecondScanSooner(call, n);
    AtCloser(st, t, Waiting);
    AtCloser(st, t, Uncounting(0, m));
    AtCloser(st, t, SecondScan(i + 1, call.place.nready));
    AtCloser(st, t, SecondScan(i + 1, n));
  }

  lemma CountingMovesOn(st: State, t: nat, timeout: bool)
    requires t in st.calls && st.calls[t].place.Counting?
    ensures Closer(st.calls[t], SelectStepAt(st, t, timeout), t)
  {
    hide CoreLocked, Hits, Bumped, Without, StepsLeft, At;
    var call := st.calls[t];
    var i := call.place.i;
    CountingSooner(call);
    AtCloser(st, t, SecondScan(0, 0));
    AtCloser(st, t, Uncounting(0, i));
    AtCloser(st, t, Counting(i + 1));
    if i < |st.socks| { AtCloser(st.(socks := st.socks[i := st.socks[i].(waiting := st.socks[i].waiting + 1)]), t, Counting(i + 1)); }
  }

  lemma UncountingMovesOn(st: State, t: nat, timeout: bool)
    requires t in st.calls && st.calls[t].place.Uncounting?
    ensures Closer(st.calls[t], SelectStepAt(st, t, timeout), t)
  {
    hide CoreLocked, Hits, Bumped, Without;
  }

  lemma WaitMovesOn(st: State, t: nat, timeout: bool)
    requires t in st.calls && (st.calls[t].place.Linking? || st.calls[t].place.Waiting? || st.calls[t].place.Unlinking?)
    ensures var st' := SelectStepAt(st, t, timeout);
      if Blocked(st, t, timeout) then st' == st else Closer(st.calls[t], st', t)
  {
    hide CoreLocked, Hits, Bumped, Without;
  }

  // ---------- A call over a whole run ----------

  function Before(actions: seq<Action>): seq<Action>
    requires actions != []
  {
    actions[..|actions| - 1]
  }

  /** The call does not leave. */
  ghost predicate Stays(st: State, actions: seq<Action>, t: nat) {
    t in Run(st, actions).calls && (actions != [] ==> Stays(st, Before(actions), t))
  }

  /** How many steps of its own, other than being blocked, a call makes. */
  ghost function OwnSteps(st: State, actions: seq<Action>, t: nat): nat {
    if actions == [] then 0
    else
      var r, a := Run(st, Before(actions)), actions[|actions| - 1];
      OwnSteps(st, Before(actions), t)
      + if a.SelectStep? && a.t == t && t in r.calls && !Blocked(r, t, a.timeout) then 1 else 0
  }

  /** Whatever the other threads do in between, a call ends within the number of steps it has ahead of it. */
  lemma {:induction false} CallEnds(st: State, actions: seq<Action>, t: nat)
    requires t in st.calls
    ensures Stays(st, actions, t) ==> OwnSteps(st, actions, t) + StepsLeft(Run(st, actions).calls[t]) <= StepsLeft(st.calls[t])
    ensures StepsLeft(st.calls[t]) < OwnSteps(st, actions, t) ==> !Stays(st, actions, t)
  {
    hide Next, StepsLeft, Blocked;
    if actions != [] && Stays(st, actions, t) {
      CallEnds(st, Before(actions), t);
      var r, a := Run(st, Before(actions)), actions[|actions| - 1];
      if a.SelectStep? && a.t == t {
        NextIsStep(r, t, a.timeout);
        CallMovesOn(r, t, a.timeout);
      } else {
        OthersKeepPlace(r, a, t);
      }
    }
  }

  lemma NextIsStep(st: State, t: nat, timeout: bool)
    requires t in st.calls
    ensures Next(st, SelectStep(t, timeout)) == SelectStepAt(st, t, timeout)
  {
  }

  /** What a step of a call may change: its place and its semaphore, counters, and the list when it enters or leaves. */
  ghost predicate OwnStep(st: State, st': State, t: nat)
    requires t in st.calls
  {
    var call := st.calls[t];
    && st'.callbacks == st.callbacks && st'.coreLocking == st.coreLocking
    && (if t in st'.calls then
          st'.calls == st.calls[t := call.(place := st'.calls[t].place, sem := st'.calls[t].sem)] && (call.Linked() ==> st'.calls[t].Linked())
        else
          st'.calls == st.calls - {t} && (call.Linked() ==> st'.list == Without(st.list, t)))
    && ((st'.list == st.list && st'.generation == st.generation)
        || ((call.place.Linking? || call.place.Unlinking?) && !(st.coreLocking && CoreLocked(st))))
  }

  lemma OwnStepIs(st: State, t: nat, timeout: bool)
    requires t in st.calls
    ensures OwnStep(st, SelectStepAt(st, t, timeout), t)
  {
    hide SelectStepAt, OwnStep;
    match st.calls[t].place
    case FirstScan(_, _) => FirstScanStep(st, t, timeout);
    case SecondScan(_, _) => SecondScanStep(st, t, timeout);
    case Counting(_) => CountingStep(st, t, timeout);
    case Uncounting(_, _) => UncountingStep(st, t, timeout);
    case _ => OtherStep(st, t, timeout);
  }

  lemma FirstScanStep(st: State, t: nat, timeout: bool)
    requires t in st.calls && st.calls[t].place.FirstScan?
    ensures OwnStep(st, SelectStepAt(st, t, timeout), t)
  {
    hide CoreLocked, Hits, Bumped, Without;
  }

  lemma SecondScanStep(st: State, t: nat, timeout: bool)
    requires t in st.calls && st.calls[t].place.SecondScan?
    ensures OwnStep(st, SelectStepAt(st, t, timeout), t)
  {
    hide CoreLocked, Hits, Bumped, Without;
  }

  lemma CountingStep(st: State, t: nat, timeout: bool)
    requires t in st.calls && st.calls[t].place.Counting?
    ensures OwnStep(st, SelectStepAt(st, t, timeout), t)
  {
    hide CoreLocked, Hits, Bumped, Without;
  }

  lemma UncountingStep(st: State, t: nat, timeout: bool)
    requires t in st.calls && st.calls[t].place.Uncounting?
    ensures OwnStep(st, SelectStepAt(st, t, timeout), t)
  {
    hide CoreLocked, Hits, Bumped, Without;
  }

  lemma OtherStep(st: State, t: nat, timeout: bool)
    requires t in st.calls && (st.calls[t].place.Linking? || st.calls[t].place.Waiting? || st.calls[t].place.Unlinking?)
    ensures OwnStep(st, SelectStepAt(st, t, timeout), t)
  {
    hide CoreLocked, Hits, Bumped, Without;
  }

  /** A step of one call leaves the others alone. */
  lemma StepKeepsOthers(st: State, u: nat, timeout: bool, t: nat)
    requires u in st.calls && t != u
    ensures var st' := SelectStepAt(st, u, timeout); (t in st'.calls <==> t in st.calls) && (t in st.calls ==> st'.calls[t] == st.calls[t])
  {
    hide SelectStepAt, CoreLocked, Without;
    OwnStepIs(st, u, timeout);
  }

  /** A callback does no more to a call than signal it. */
  lemma EventKeepsPlace(st: State, e: nat, t: nat)
    requires e in st.callbacks
    ensures var st' := EventStepAt(st, e);
      && (t in st'.calls <==> t in st.calls)
      && (t in st.calls ==> st'.calls[t].(signalled := st.calls[t].signalled, sem := st.calls[t].sem) == st.calls[t])
  {
    hide Flags, Updated, CheckWaiters, Concerns;
  }

  lemma OthersKeepPlace(st: State, a: Action, t: nat)
    requires t in st.calls && !(a.SelectStep? && a.t == t)
    ensures t in Next(st, a).calls && StepsLeft(Next(st, a).calls[t]) == StepsLeft(st.calls[t])
  {
    hide SelectStepAt, EventStepAt;
    match a
    case SelectStep(u, timeout) => if u in st.calls { StepKeepsOthers(st, u, timeout, t); }
    case EventStep(e) => if e in st.callbacks { EventKeepsPlace(st, e, t); }
    case _ =>
  }

  /** In every interleaving, a sleeping call that was signalled wakes up with its next step, taking the signal; one
      that was not sleeps on, unless its time is over. */
  lemma SignalledWakesUp(st: State, actions: seq<Action>, t: nat, timeout: bool)
    requires Initial(st)
    requires var r := Run(st, actions); t in r.calls && r.calls[t].place.Waiting?
    ensures var r := Run(st, actions);
      var r' := SelectStepAt(r, t, timeout);
      && (r.calls[t].signalled ==> t in r'.calls && r'.calls[t].sem == 0 && r'.calls[t].place.Uncounting?)
      && (!r.calls[t].signalled ==> r' == r || (timeout && r.calls[t].mayTimeOut))
  {
    RunInv(st, actions);
    assert SemOk(Run(st, actions));
  }

  // ---------- A walk over a whole run ----------

  ghost function Left(st: State, e: nat): int
    requires e in st.callbacks && st.callbacks[e].Walking?
  {
    |st.list| - if st.callbacks[e].last == st.generation then st.callbacks[e].next else 0
  }

  function WalkSteps(actions: seq<Action>, e: nat): nat {
    if actions == [] then 0
    else WalkSteps(Before(actions), e) + if actions[|actions| - 1] == EventStep(e) then 1 else 0
  }

  /** No call is put on the list or taken off. */
  ghost predicate ListKept(st: State, actions: seq<Action>) {
    && Run(st, actions).list == st.list && Run(st, actions).generation == st.generation
    && (actions != [] ==> ListKept(st, Before(actions)))
  }

  /** At some moment the call has been signalled. */
  ghost predicate Told(st: State, actions: seq<Action>, t: nat) {
    (t in Run(st, actions).calls && Run(st, actions).calls[t].signalled) || (actions != [] && Told(st, Before(actions), t))
  }

  /** Walk e has not come to call t yet and will tell it about event k of socket s. */
  ghost predicate Coming(st: State, e: nat, t: nat, s: nat, k: Kind) {
    && t in st.calls && t in st.list && st.calls[t].Linked() && !st.calls[t].signalled && s in st.calls[t].Watched(k)
    && WillVisit(st, e, t, s, k)
  }

  /** A walk that will visit a call does: within as many of its steps as the list has entries the call is signalled,
      whatever the other threads do, as long as the list is kept, which the core lock sees to where there is one. */
  lemma WalkReachesTheCall(st: State, actions: seq<Action>, e: nat, t: nat, s: nat, k: Kind)
    requires Inv(st) && Uninformed(st, t, s, k) && WillVisit(st, e, t, s, k)
    requires st.coreLocking || ListKept(st, actions)
    ensures |st.list| <= WalkSteps(actions, e) ==> Told(st, actions, t)
  {
    assert ListOk(st);
    WalkComesCloser(st, actions, e, t, s, k);
    if !Told(st, actions, t) { ComingIsAhead(Run(st, actions), e, t, s, k); }
  }

  lemma ComingIsAhead(st: State, e: nat, t: nat, s: nat, k: Kind)
    requires Coming(st, e, t, s, k)
    ensures 0 < Left(st, e)
  {
  }

  lemma {:induction false} WalkComesCloser(st: State, actions: seq<Action>, e: nat, t: nat, s: nat, k: Kind)
    requires Coming(st, e, t, s, k) && (st.coreLocking || ListKept(st, actions))
    ensures var r := Run(st, actions);
      Told(st, actions, t) || (Coming(r, e, t, s, k) && r.coreLocking == st.coreLocking && r.list == st.list
                               && WalkSteps(actions, e) + Left(r, e) <= |st.list|)
  {
    if actions != [] {
      WalkComesCloser(st, Before(actions), e, t, s, k);
      if !Told(st, Before(actions), t) {
        var r, a := Run(st, Before(actions)), actions[|actions| - 1];
        hide Next, Inv, Coming, Run;
        assert Run(st, actions) == Next(r, a) by { RunLast(st, actions); }
        WalkGoesOn(r, a, e, t, s, k);
      }
    }
  }

  lemma RunLast(st: State, actions: seq<Action>)
    requires actions != []
    ensures Run(st, actions) == Next(Run(st, Before(actions)), actions[|actions| - 1])
  {
  }

  /** The walk is as far from the call as before, or closer, or has told it. */
  ghost predicate GoesOn(st: State, st': State, e: nat, t: nat, s: nat, k: Kind, step: nat)
    requires Coming(st, e, t, s, k)
  {
    || (t in st'.calls && st'.calls[t].signalled)
    || (Coming(st', e, t, s, k) && st'.coreLocking == st.coreLocking && st'.list == st.list && Left(st', e) + step <= Left(st, e))
  }

  lemma WalkGoesOn(st: State, a: Action, e: nat, t: nat, s: nat, k: Kind)
    requires Coming(st, e, t, s, k)
    requires st.coreLocking || (Next(st, a).list == st.list && Next(st, a).generation == st.generation)
    ensures GoesOn(st, Next(st, a), e, t, s, k, if a == EventStep(e) then 1 else 0)
  {
    hide SelectStepAt, EventStepAt;
    match a
    case SelectStep(u, timeout) => if u in st.calls { SelectStepKeepsWalk(st, u, timeout, e, t, s, k); }
    case EventStep(e') =>
      if e' == e { StepOfWalk(st, e, t, s, k); } else if e' in st.callbacks { OtherWalk(st, e', e, t, s, k); }
    case _ =>
  }

  lemma StepOfWalk(st: State, e: nat, t: nat, s: nat, k: Kind)
    requires Coming(st, e, t, s, k)
    ensures GoesOn(st, EventStepAt(st, e), e, t, s, k, 1)
  {
    var j :| 0 <= j < |st.list| && st.list[j] == t;
    assert s in st.calls[t].Watched(k);
  }

  lemma OtherWalk(st: State, e': nat, e: nat, t: nat, s: nat, k: Kind)
    requires Coming(st, e, t, s, k) && e' in st.callbacks && e' != e
    ensures GoesOn(st, EventStepAt(st, e'), e, t, s, k, 0)
  {
  }

  lemma SelectStepKeepsWalk(st: State, u: nat, timeout: bool, e: nat, t: nat, s: nat, k: Kind)
    requires Coming(st, e, t, s, k) && u in st.calls
    requires var st' := SelectStepAt(st, u, timeout); st.coreLocking || (st'.list == st.list && st'.generation == st.generation)
    ensures GoesOn(st, SelectStepAt(st, u, timeout), e, t, s, k, 0)
  {
    hide SelectStepAt, Without;
    assert HoldsCoreLock(st.callbacks[e]);
    WithoutShorter(st.list, t);
    OwnStepIs(st, u, timeout);
  }

  lemma {:induction false} WithoutShorter(list: seq<nat>, t: nat)
    requires t in list
    ensures |Without(list, t)| < |list|
  {
    if list[0] != t { WithoutShorter(list[1..], t); }
  }

  // ---------- No call is woken up without a reason ----------

  /** At some moment socket s was ready for k. */
  ghost predicate WasReady(st: State, actions: seq<Action>, s: nat, k: Kind) {
    || (s < |Run(st, actions).socks| && Run(st, actions).socks[s].Ready(k))
    || (actions != [] && WasReady(st, Before(actions), s, k))
  }

  /** What walk e tells was once the case. */
  ghost predicate Truthful(st: State, actions: seq<Action>, cb: Callback) {
    cb.Walking? ==> forall k :: k in cb.flags ==> WasReady(st, actions, cb.s, k)
  }

  ghost predicate HasReason(st: State, actions: seq<Action>, call: Call) {
    call.signalled ==> exists s: nat, k: Kind :: s in call.Watched(k) && WasReady(st, actions, s, k)
  }

  /** In every interleaving, a call is signalled only after a socket it watches has been ready for what it
      watches it for. */
  lemma {:induction false} SignalledForAReason(st: State, actions: seq<Action>)
    requires Initial(st)
    ensures forall t :: t in Run(st, actions).calls ==> HasReason(st, actions, Run(st, actions).calls[t])
    ensures forall e :: e in Run(st, actions).callbacks ==> Truthful(st, actions, Run(st, actions).callbacks[e])
  {
    if actions != [] {
      SignalledForAReason(st, Before(actions));
      var r, a := Run(st, Before(actions)), actions[|actions| - 1];
      RunLast(st, actions);
      forall t | t in Next(r, a).calls ensures HasReason(st, actions, Next(r, a).calls[t]) { ReasonKept(st, actions, t); }
      forall e | e in Next(r, a).callbacks ensures Truthful(st, actions, Next(r, a).callbacks[e]) {
        hide Next;
        if Next(r, a).callbacks[e].Walking? { FlagsFrom(r, a, e); }
      }
    }
  }

  lemma ReasonKept(st: State, actions: seq<Action>, t: nat)
    requires actions != [] && t in Run(st, actions).calls
    requires var r := Run(st, Before(actions));
      && (forall u :: u in r.calls ==> HasReason(st, Before(actions), r.calls[u]))
      && (forall e :: e in r.callbacks ==> Truthful(st, Before(actions), r.callbacks[e]))
    ensures HasReason(st, actions, Run(st, actions).calls[t])
  {
    var r, a := Run(st, Before(actions)), actions[|actions| - 1];
    RunLast(st, actions);
    var call := Next(r, a).calls[t];
    hide Next, Run;
    if call.signalled {
      SignalledBy(r, a, t);
      if t in r.calls && r.calls[t].signalled {
        assert HasReason(st, Before(actions), r.calls[t]);
        var s: nat, k: Kind :| s in r.calls[t].Watched(k) && WasReady(st, Before(actions), s, k);
        assert s in call.Watched(k) && WasReady(st, actions, s, k);
      } else {
        assert Truthful(st, Before(actions), r.callbacks[a.e]);
        var s := r.callbacks[a.e].s;
        var k :| k in r.callbacks[a.e].flags && s in call.Watched(k);
        assert WasReady(st, Before(actions), s, k) && WasReady(st, actions, s, k);
      }
    }
  }

  /** A call is signalled by a walk that has something to tell it, and stays signalled. */
  lemma SignalledBy(st: State, a: Action, t: nat)
    requires t in Next(st, a).calls && Next(st, a).calls[t].signalled
    ensures var call := Next(st, a).calls[t];
      || (t in st.calls && st.calls[t].signalled && forall k: Kind :: call.Watched(k) == st.calls[t].Watched(k))
      || (a.EventStep? && a.e in st.callbacks && Tells(st.callbacks[a.e], call))
  {
    hide SelectStepAt, EventStepAt;
    match a
    case SelectStep(u, timeout) =>
      if u in st.calls && u != t { StepKeepsOthers(st, u, timeout, t); } else if u == t { OwnStepSignal(st, t, timeout); }
    case EventStep(e) =>
      if e in st.callbacks {
        EventKeepsPlace(st, e, t);
        if !st.calls[t].signalled { VisitTells(st, e, t); }
      }
    case _ =>
  }

  /** The walk has an event to tell that the call waits for. */
  ghost predicate Tells(cb: Callback, call: Call) {
    cb.Walking? && exists k: Kind :: k in cb.flags && cb.s in call.Watched(k)
  }

  lemma OwnStepSignal(st: State, t: nat, timeout: bool)
    requires t in st.calls && t in SelectStepAt(st, t, timeout).calls
    ensures var call := SelectStepAt(st, t, timeout).calls[t];
      call.signalled == st.calls[t].signalled && forall k: Kind :: call.Watched(k) == st.calls[t].Watched(k)
  {
    hide SelectStepAt, CoreLocked, Without;
    OwnStepIs(st, t, timeout);
  }

  lemma VisitTells(st: State, e: nat, t: nat)
    requires e in st.callbacks && t in st.calls && t in EventStepAt(st, e).calls
    requires !st.calls[t].signalled && EventStepAt(st, e).calls[t].signalled
    ensures Tells(st.callbacks[e], EventStepAt(st, e).calls[t])
  {
    hide Flags, Updated, CheckWaiters;
    var Walking(s, flags, _, _) := st.callbacks[e];
    var call := EventStepAt(st, e).calls[t];
    var k := if Recv in flags && s in call.readset then Recv else if Send in flags && s in call.writeset then Send else Except;
    assert k in flags && s in call.Watched(k);
  }

  /** A walk tells what the socket was ready for when it began. */
  lemma FlagsFrom(st: State, a: Action, e: nat)
    requires e in Next(st, a).callbacks && Next(st, a).callbacks[e].Walking?
    ensures var st' := Next(st, a);
      var cb := st'.callbacks[e];
      || (e in st.callbacks && st.callbacks[e].Walking? && st.callbacks[e].s == cb.s && st.callbacks[e].flags == cb.flags)
      || (forall k :: k in cb.flags ==> cb.s < |st'.socks| && st'.socks[cb.s].Ready(k))
  {
    hide SelectStepAt, Without, CoreLocked, HoldsCoreLock;
    if a.SelectStep? && a.t in st.calls { OwnStepIs(st, a.t, a.timeout); }
  }

  function KindOf(event: Event): Kind {
    match event
    case RcvPlus => Recv
    case RcvMinus => Recv
    case SendPlus => Send
    case SendMinus => Send
    case Error => Except
  }

  /** An event concerns one kind of readiness only. When it makes the socket ready for it, the calls that
      wait are told; when it does so for the second time, they need not be. */
  lemma EventLaws(so: Sock, event: Event, k: Kind)
    ensures var so' := Updated(so, event);
      && (!so.Ready(k) && so'.Ready(k) ==> CheckWaiters(so, event) && k in Flags(so') && k == KindOf(event))
      && (k != KindOf(event) ==> (so'.Ready(k) <==> so.Ready(k)))
      && (!event.Error? && CheckWaiters(so, event) ==> !so.Ready(KindOf(event)))
      && so'.waiting == so.waiting && so'.lastdata == so.lastdata
    ensures 0 <= so.rcvevent ==> Updated(so, RcvPlus).Ready(Recv)
    ensures Updated(so, SendPlus).Ready(Send) && !Updated(so, SendMinus).Ready(Send) && Updated(so, Error).Ready(Except)
    ensures Updated(Updated(so, RcvPlus), RcvMinus) == so
  {
  }

  /** In every interleaving, when the section of event_callback that nothing interrupts makes a socket ready for
      something, a walk begins that will visit every call that relies on hearing of it. */
  lemma ReadinessIsAnnounced(st: State, actions: seq<Action>, e: nat, t: nat, k: Kind)
    requires Initial(st)
    requires var r := Run(st, actions);
      && e in r.callbacks && r.callbacks[e].Raised? && r.callbacks[e].s < |r.socks| && t in r.calls
      && r.calls[t].Relies(r.callbacks[e].s) && r.callbacks[e].s in r.calls[t].Watched(k)
    requires var r := Run(st, actions);
      !r.socks[r.callbacks[e].s].Ready(k) && EventStepAt(r, e).socks[r.callbacks[e].s].Ready(k)
    ensures var r := Run(st, actions); WillVisit(EventStepAt(r, e), e, t, r.callbacks[e].s, k)
  {
    RunInv(st, actions);
    var r := Run(st, actions);
    var s, event := r.callbacks[e].s, r.callbacks[e].event;
    EventLaws(r.socks[s], event, k);
    assert t in Counters(r.calls, s);
    assert r.socks[s].waiting == |Counters(r.calls, s)|;
  }
}
