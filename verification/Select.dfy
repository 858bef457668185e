/** The wakeup protocol between lwip_select and event_callback: a state machine whose
    steps are the sections of the code that nothing can interrupt. */
module Select {

  datatype Kind = Recv | Send | Except

  /** The members of a socket that select looks at. `waiting` is select_waiting, one octet. */
  datatype Sock = Sock(rcvevent: int, sendevent: bool, errevent: bool, lastdata: bool, waiting: nat)
  {
    predicate Ready(k: Kind) {
      match k
      case Recv => 0 < rcvevent
      case Send => sendevent
      case Except => errevent
    }

    /** What lwip_selscan takes for an event. */
    predicate Scanned(k: Kind) {
      Ready(k) || (k.Recv? && lastdata)
    }
  }

  /** Where a thread stands inside lwip_select. `i` is the next socket to look at. */
  datatype Place =
    | FirstScan(i: nat, nready: nat)
    | Linking
    | Counting(i: nat)
    | SecondScan(i: nat, nready: nat)
    | Waiting
    | Uncounting(i: nat, limit: nat)
    | Unlinking

  /** One call of lwip_select. */
  datatype Call = Call(
    readset: set<nat>, writeset: set<nat>, exceptset: set<nat>, maxfdp1: nat,
    noWait: bool, mayTimeOut: bool,
    place: Place, signalled: bool, sem: nat)
  {
    function Watched(k: Kind): set<nat> {
      match k case Recv => readset case Send => writeset case Except => exceptset
    }

    /** Socket i is in one of the sets. */
    predicate Wants(i: nat) {
      i < maxfdp1 && (i in readset || i in writeset || i in exceptset)
    }

    /** The call's entry is on select_cb_list. */
    predicate Linked() {
      !place.FirstScan? && !place.Linking?
    }

    /** The call has raised select_waiting of socket i and not lowered it again. */
    predicate Counts(i: nat) {
      Wants(i) &&
      match place
      case Counting(j) => i < j
      case SecondScan(_, _) => true
      case Waiting => true
      case Uncounting(j, limit) => j <= i < limit
      case _ => false
    }

    /** The call sleeps, or is about to, having found nothing on socket i. */
    predicate Relies(i: nat) {
      Wants(i) && (place.Waiting? || (place.SecondScan? && place.nready == 0 && i < place.i))
    }
  }

  datatype Event = RcvPlus | RcvMinus | SendPlus | SendMinus | Error

  /** One run of event_callback: before its protected section, or inside select_check_waiters,
      having visited `next` entries of the list as it was at generation `last`. */
  datatype Callback =
    | Raised(s: nat, event: Event)
    | Walking(s: nat, flags: set<Kind>, last: nat, next: nat)

  /** `coreLocking` is LWIP_TCPIP_CORE_LOCKING, `generation` is select_cb_ctr. */
  datatype State = State(
    coreLocking: bool, socks: seq<Sock>, calls: map<nat, Call>,
    list: seq<nat>, generation: nat, callbacks: map<nat, Callback>)

  /** Any thread may do any of these at any time. */
  datatype Action =
    | CallSelect(t: nat, call: Call)
    | SelectStep(t: nat, timeout: bool)
    | Raise(e: nat, s: nat, event: Event)
    | EventStep(e: nat)
    | SetLastdata(s: nat, present: bool)

  // ---------- lwip_select ----------

  function At(st: State, t: nat, place: Place): State
    requires t in st.calls
  {
    st.(calls := st.calls[t := st.calls[t].(place := place)])
  }

  function Leave(st: State, t: nat): State {
    st.(calls := st.calls - {t})
  }

  function Hits(call: Call, i: nat, so: Sock): nat {
    (if i in call.readset && so.Scanned(Recv) then 1 else 0)
    + (if i in call.writeset && so.Scanned(Send) then 1 else 0)
    + (if i in call.exceptset && so.Scanned(Except) then 1 else 0)
  }

  /** Someone holds the core lock: the callbacks that may walk the list do. */
  ghost predicate CoreLocked(st: State) {
    exists e :: e in st.callbacks && HoldsCoreLock(st.callbacks[e])
  }

  predicate HoldsCoreLock(cb: Callback) {
    cb.Walking? || cb.event.RcvPlus? || cb.event.SendPlus? || cb.event.Error?
  }

  ghost function SelectStepAt(st: State, t: nat, timeout: bool): State
    requires t in st.calls
  {
    var call := st.calls[t];
    match call.place
    case FirstScan(i, nready) =>
      if call.maxfdp1 <= i then
        if 0 < nready || call.noWait then Leave(st, t) else At(st, t, Linking)
      else if !call.Wants(i) then At(st, t, FirstScan(i + 1, nready))
      else if |st.socks| <= i then Leave(st, t)
      else At(st, t, FirstScan(i + 1, nready + Hits(call, i, st.socks[i])))
    case Linking =>
      if st.coreLocking && CoreLocked(st) then st
      else At(st.(list := [t] + st.list, generation := Bumped(st)), t, Counting(0))
    case Counting(i) =>
      if call.maxfdp1 <= i then At(st, t, SecondScan(0, 0))
      else if !call.Wants(i) then At(st, t, Counting(i + 1))
      else if |st.socks| <= i then At(st, t, Uncounting(0, i))
      else if st.socks[i].waiting + 1 == 0x100 then At(st, t, Uncounting(0, i))
      else At(st.(socks := st.socks[i := st.socks[i].(waiting := st.socks[i].waiting + 1)]), t, Counting(i + 1))
    case SecondScan(i, nready) =>
      if call.maxfdp1 <= i then
        if nready == 0 then At(st, t, Waiting) else At(st, t, Uncounting(0, call.maxfdp1))
      else if !call.Wants(i) then At(st, t, SecondScan(i + 1, nready))
      else if |st.socks| <= i then At(st, t, Uncounting(0, call.maxfdp1))
      else At(st, t, SecondScan(i + 1, nready + Hits(call, i, st.socks[i])))
    case Waiting =>
      if 0 < call.sem then
        st.(calls := st.calls[t := call.(sem := call.sem - 1, place := Uncounting(0, call.maxfdp1))])
      else if timeout && call.mayTimeOut then At(st, t, Uncounting(0, call.maxfdp1))
      else st
    case Uncounting(i, limit) =>
      if limit <= i then At(st, t, Unlinking)
      else if !call.Wants(i) then At(st, t, Uncounting(i + 1, limit))
      else if |st.socks| <= i then At(st, t, Uncounting(i + 1, limit))
      else if st.socks[i].waiting == 0 then At(st, t, Uncounting(i + 1, limit))
      else At(st.(socks := st.socks[i := st.socks[i].(waiting := st.socks[i].waiting - 1)]), t, Uncounting(i + 1, limit))
    case Unlinking =>
      if st.coreLocking && CoreLocked(st) then st
      else Leave(st.(list := Without(st.list, t), generation := Bumped(st)), t)
  }

  /** select_cb_ctr only exists without core locking. */
  function Bumped(st: State): nat {
    if st.coreLocking then st.generation else st.generation + 1
  }

  function Without(list: seq<nat>, t: nat): seq<nat> {
    if list == [] then [] else if list[0] == t then list[1..] else [list[0]] + Without(list[1..], t)
  }

  // ---------- event_callback and select_check_waiters ----------

  function Updated(so: Sock, event: Event): Sock {
    match event
    case RcvPlus => so.(rcvevent := so.rcvevent + 1)
    case RcvMinus => so.(rcvevent := so.rcvevent - 1)
    case SendPlus => so.(sendevent := true)
    case SendMinus => so.(sendevent := false)
    case Error => so.(errevent := true)
  }

  predicate CheckWaiters(so: Sock, event: Event) {
    match event
    case RcvPlus => !(1 < so.rcvevent + 1)
    case RcvMinus => false
    case SendPlus => !so.sendevent
    case SendMinus => false
    case Error => true
  }

  ghost function Flags(so: Sock): set<Kind> {
    set k: Kind | so.Ready(k)
  }

  ghost function EventStepAt(st: State, e: nat): State
    requires e in st.callbacks
  {
    match st.callbacks[e]
    case Raised(s, event) =>
      if |st.socks| <= s then st.(callbacks := st.callbacks - {e})
      else
        var so := Updated(st.socks[s], event);
        var st' := st.(socks := st.socks[s := so]);
        if so.waiting != 0 && CheckWaiters(st.socks[s], event) then
          st'.(callbacks := st.callbacks[e := Walking(s, Flags(so), st.generation, 0)])
        else
          st'.(callbacks := st.callbacks - {e})
    case Walking(s, flags, last, next) =>
      var i := if last != st.generation then 0 else next;
      if |st.list| <= i then st.(callbacks := st.callbacks - {e})
      else
        st.(calls := Visited(st.calls, st.list[i], s, flags),
            callbacks := st.callbacks[e := Walking(s, flags, st.generation, i + 1)])
  }

  /** select_check_waiters at one entry of the list. */
  function Visited(calls: map<nat, Call>, t: nat, s: nat, flags: set<Kind>): map<nat, Call> {
    if t in calls && !calls[t].signalled && Concerns(calls[t], s, flags) then
      calls[t := calls[t].(signalled := true, sem := calls[t].sem + 1)]
    else calls
  }

  predicate Concerns(call: Call, s: nat, flags: set<Kind>) {
    || (Recv in flags && s in call.readset)
    || (Send in flags && s in call.writeset)
    || (Except in flags && s in call.exceptset)
  }

  // ---------- Runs ----------

  ghost function Next(st: State, a: Action): State {
    match a
    case CallSelect(t, call) =>
      if t in st.calls || call.place != FirstScan(0, 0) || call.signalled || call.sem != 0 then st
      else st.(calls := st.calls[t := call])
    case SelectStep(t, timeout) =>
      if t in st.calls then SelectStepAt(st, t, timeout) else st
    case Raise(e, s, event) =>
      if e in st.callbacks || (st.coreLocking && HoldsCoreLock(Raised(s, event)) && CoreLocked(st)) then st
      else st.(callbacks := st.callbacks[e := Raised(s, event)])
    case EventStep(e) =>
      if e in st.callbacks then EventStepAt(st, e) else st
    case SetLastdata(s, present) =>
      if s < |st.socks| then st.(socks := st.socks[s := st.socks[s].(lastdata := present)]) else st
  }

  ghost function Run(st: State, actions: seq<Action>): State {
    if actions == [] then st else Next(Run(st, actions[..|actions| - 1]), actions[|actions| - 1])
  }

  ghost predicate Initial(st: State) {
    && st.calls == map[] && st.list == [] && st.callbacks == map[]
    && forall s :: 0 <= s < |st.socks| ==> st.socks[s].waiting == 0
  }
}
