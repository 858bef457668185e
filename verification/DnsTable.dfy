/** One entry of the DNS table as a value: how a timer tick and a response move it on,
    and the measure that shows it comes to an end. */
module DnsTable {
  import opened Arith
  import opened Prelude

  datatype AddrType = V4 | V6 | V4V6 | V6V4
  {
    predicate IsV6() { V6? || V6V4? }

    /** Another address family is left to try. */
    predicate Falls() { V4V6? || V6V4? }

    /** The family to try next. */
    function Fallback(): AddrType { if V4V6? then V6 else V4 }
  }

  datatype Address = IPv4(bits: nat) | IPv6(bits: nat)

  datatype EntryState = Unused | New | Asking | Done

  datatype Entry = Entry(
    state: EntryState, txid: nat, serverIdx: nat, tmr: nat, retries: nat, seqno: nat,
    name: seq<byte>, addrType: AddrType, mdns: bool, ttl: nat, ipaddr: Address)

  /** dns_requests: a callback, and the table entry it waits for. */
  datatype Request = Request(found: Option<nat>, tableIdx: nat)

  /** DNS_MAX_SERVERS and DNS_MAX_RETRIES */
  datatype Limits = Limits(servers: nat, retries: nat)
  {
    predicate Valid() { 0 < servers < 0x100 && 0 < retries < 0x100 }
  }

  const MAX_TTL := 604800

  /** The servers as configured at the moment; None is the "any" address. */
  type Servers = seq<Option<nat>>

  predicate BackupAvailable(e: Entry, servers: Servers) {
    e.serverIdx + 1 < |servers| && servers[e.serverIdx + 1].Some?
  }

  /** What becomes of the requests that wait for an entry. */
  datatype Verdict = Wait | Answer(addr: Option<Address>)

  /** dns_send: without a server there is no point in waiting. */
  function Sent(e: Entry, servers: Servers): (Entry, Verdict) {
    if e.serverIdx < |servers| && servers[e.serverIdx].None? && !e.mdns then (e.(state := Unused), Answer(None))
    else (e, Wait)
  }

  /** dns_check_entry; `txid` is the identifier a new query gets. */
  function Checked(e: Entry, servers: Servers, l: Limits, txid: nat): (Entry, Verdict) {
    match e.state
    case New => Sent(e.(state := Asking, txid := txid, serverIdx := 0, tmr := 1, retries := 0), servers)
    case Asking =>
      if e.tmr != 1 then (e.(tmr := if e.tmr == 0 then 0xFF else e.tmr - 1), Wait)
      else if e.retries + 1 == l.retries then
        if BackupAvailable(e, servers) && !e.mdns then
          Sent(e.(serverIdx := e.serverIdx + 1, tmr := 1, retries := 0), servers)
        else (e.(tmr := 0, retries := e.retries + 1, state := Unused), Answer(None))
      else Sent(e.(retries := e.retries + 1, tmr := e.retries + 1), servers)
    case Done =>
      if e.ttl <= 1 then (e.(ttl := 0, state := Unused), Wait) else (e.(ttl := e.ttl - 1), Wait)
    case Unused => (e, Wait)
  }

  // ---------- The measure ----------

  /** a + (a + 1) + ... + (b - 1) */
  function SumRange(a: nat, b: nat): nat
    decreases b - a
  {
    if b <= a then 0 else a + SumRange(a + 1, b)
  }

  /** Ticks one server gets: 1 + 1 + 2 + ... + (retries - 1). */
  function PerServer(l: Limits): nat { 1 + SumRange(1, l.retries) }

  lemma {:induction false} SumRangeClosed(n: nat)
    requires 0 < n
    ensures SumRange(1, n) == n * (n - 1) / 2
  {
    if n > 1 {
      SumRangeClosed(n - 1);
      SumRangeLast(1, n);
      assert n * (n - 1) == (n - 1) * (n - 2) + 2 * (n - 1);
    }
  }

  lemma {:induction false} SumRangeLast(a: nat, b: nat)
    requires a < b
    ensures SumRange(a, b) == SumRange(a, b - 1) + b - 1
    decreases b - a
  {
    if a + 1 < b { SumRangeLast(a + 1, b); }
  }

  /** Ticks n servers get. */
  function ServersTicks(n: nat, l: Limits): nat { n * PerServer(l) }

  /** Ticks until a query must have come to an end, whatever is received. */
  function Ticks(e: Entry, l: Limits): nat
    requires e.state.Asking? ==> e.serverIdx < l.servers
  {
    var family := if e.addrType.Falls() then ServersTicks(l.servers, l) else 0;
    match e.state
    case New => family + ServersTicks(l.servers, l)
    case Asking => family + ServersTicks(l.servers - 1 - e.serverIdx, l) + e.tmr + SumRange(e.retries + 1, l.retries)
    case _ => 0
  }

  /** The most ticks a request ever waits. */
  function Bound(l: Limits): nat { 2 * ServersTicks(l.servers, l) }

  /** The ticks of one server in closed form: 1 + retries * (retries - 1) / 2. */
  lemma PerServerClosed(l: Limits)
    requires l.Valid()
    ensures PerServer(l) == 1 + l.retries * (l.retries - 1) / 2
  {
    SumRangeClosed(l.retries);
  }

  /** The bound in closed form: 2 * servers * (1 + retries * (retries - 1) / 2). */
  lemma BoundClosed(l: Limits)
    requires l.Valid()
    ensures Bound(l) == 2 * (l.servers * (1 + l.retries * (l.retries - 1) / 2))
  {
    PerServerClosed(l);
  }

  /** An entry between calls. */
  predicate Settled(e: Entry, l: Limits) {
    !e.state.New? && (e.state.Asking? ==> Running(e, l))
  }

  predicate Running(e: Entry, l: Limits) {
    e.serverIdx < l.servers && e.retries < l.retries && 1 <= e.tmr <= e.retries + 1
  }

  lemma NextServer(l: Limits, n: nat)
    requires 0 < n
    ensures ServersTicks(n, l) == ServersTicks(n - 1, l) + PerServer(l)
  {
    Distribute(n - 1, 1, PerServer(l));
  }

  lemma Distribute(a: int, b: int, k: int)
    ensures (a + b) * k == a * k + b * k
  {
  }

  /** A tick brings a running query closer to its end by exactly one, or ends it. */
  lemma TickDecreases(e: Entry, servers: Servers, l: Limits, txid: nat)
    requires l.Valid() && |servers| == l.servers && e.state.Asking? && Settled(e, l)
    ensures var (e', v) := Checked(e, servers, l, txid);
      && Settled(e', l)
      && (v.Wait? ==> e'.state.Asking? && Ticks(e', l) + 1 == Ticks(e, l) && e'.txid == e.txid)
      && (v.Answer? ==> e'.state.Unused? && v.addr.None? && 1 <= Ticks(e, l))
      && e'.addrType == e.addrType && e'.name == e.name
  {
    hide ServersTicks;
    if e.serverIdx + 1 < l.servers { NextServer(l, l.servers - 1 - e.serverIdx); }
    assert e.retries + 1 < l.retries ==>
      SumRange(e.retries + 1, l.retries) == e.retries + 1 + SumRange(e.retries + 2, l.retries);
  }

  /** Starting a query costs nothing against the measure of a new entry. */
  lemma StartKeepsTicks(e: Entry, servers: Servers, l: Limits, txid: nat)
    requires l.Valid() && |servers| == l.servers && e.state.New?
    ensures var (e', v) := Checked(e, servers, l, txid);
      && Settled(e', l)
      && (v.Wait? ==> e'.state.Asking? && Ticks(e', l) <= Ticks(e, l) <= Bound(l) && e'.txid == txid)
      && (v.Answer? ==> e'.state.Unused? && v.addr.None?)
      && e'.addrType == e.addrType
  {
    hide ServersTicks;
    NextServer(l, l.servers);
  }

  /** An error response moves on to the next server at once. */
  lemma ErrorMovesOn(e: Entry, servers: Servers, l: Limits, txid: nat)
    requires l.Valid() && |servers| == l.servers && e.state.Asking? && Settled(e, l) && BackupAvailable(e, servers)
    ensures var (e', v) := Checked(e.(retries := l.retries - 1, tmr := 1), servers, l, txid);
      && Settled(e', l)
      && (v.Wait? ==> e'.state.Asking? && e'.serverIdx == e.serverIdx + 1 && Ticks(e', l) <= Ticks(e, l) && e'.txid == e.txid)
      && (v.Answer? ==> e'.state.Unused? && v.addr.None?)
      && (v.Answer? <==> e.mdns)
  {
    hide ServersTicks;
    NextServer(l, l.servers - 1 - e.serverIdx);
  }

  /** Falling back to the other address family starts over, but only once. */
  lemma FallbackMovesOn(e: Entry, l: Limits)
    requires l.Valid() && e.state.Asking? && Settled(e, l) && e.addrType.Falls()
    ensures Ticks(e.(addrType := e.addrType.Fallback(), state := New), l) <= Ticks(e, l)
  {
    hide ServersTicks;
  }

  /** A query in progress never has more than the bound ahead of it. */
  lemma RunningBound(e: Entry, l: Limits)
    requires l.Valid() && e.state.Asking? && Running(e, l)
    ensures Ticks(e, l) <= Bound(l)
  {
    hide ServersTicks;
    RetriesBound(e.retries, l.retries);
    NextServer(l, l.servers);
    MoreServers(l.servers - 1 - e.serverIdx, l.servers - 1, l);
  }

  lemma {:induction false} RetriesBound(k: nat, n: nat)
    requires k < n
    ensures k + 1 + SumRange(k + 1, n) <= 1 + SumRange(1, n)
  {
    if k != 0 { RetriesBound(k - 1, n); }
  }

  lemma MoreServers(a: nat, b: nat, l: Limits)
    requires a <= b
    ensures ServersTicks(a, l) <= ServersTicks(b, l)
  {
    Distribute(b - a, a, PerServer(l));
  }

  // ---------- A query that nobody answers ----------

  /** A query that is asked goes to a server, or to all for mDNS. */
  datatype Query = Query(txid: nat, to: Option<nat>, name: seq<byte>, v6: bool)

  function QueryOf(e: Entry, servers: Servers): Query {
    Query(e.txid, if e.mdns || |servers| <= e.serverIdx then None else servers[e.serverIdx], e.name, e.addrType.IsV6())
  }

  /** How many servers are configured before the first that is not. */
  function Leading(servers: Servers): (n: nat)
    ensures n <= |servers| && (forall i :: 0 <= i < n ==> servers[i].Some?) && (n < |servers| ==> servers[n].None?)
  {
    if servers == [] || servers[0].None? then 0
    else
      var n := Leading(servers[1..]);
      assert forall i :: 0 < i < n + 1 ==> servers[i] == servers[1..][i - 1];
      n + 1
  }

  /** The servers that a query asks in turn; an mDNS query asks everyone at once. */
  function Turns(e: Entry, servers: Servers): nat { if e.mdns then 1 else Leading(servers) }

  /** When a tick ends a query: its last retry is over and there is no other server to ask, or its own has gone. */
  lemma TimesOutIff(e: Entry, servers: Servers, l: Limits, txid: nat)
    requires l.Valid() && |servers| == l.servers && e.state.Asking? && Settled(e, l)
    ensures var (e', v) := Checked(e, servers, l, txid);
      && (v.Answer? ==> e.tmr == 1)
      && (e.tmr == 1 && e.retries + 1 < l.retries ==> (v.Answer? <==> !e.mdns && servers[e.serverIdx].None?))
      && (e.tmr == 1 && e.retries + 1 == l.retries ==>
            (v.Answer? <==> e.mdns || e.serverIdx + 1 == |servers| || servers[e.serverIdx + 1].None?))
      && (v.Wait? ==> e'.serverIdx == e.serverIdx + if e.tmr == 1 && e.retries + 1 == l.retries then 1 else 0)
      && (v.Wait? ==> e'.mdns == e.mdns && e'.seqno == e.seqno)
  {
  }

  /** The ticks the present server has had */
  function Elapsed(e: Entry, l: Limits): int { PerServer(l) - e.tmr - SumRange(e.retries + 1, l.retries) }

  /** Once the query has been sent for the first time */
  predicate JustStarted(e: Entry) { e.state.Asking? && e.serverIdx == 0 && e.tmr == 1 && e.retries == 0 }

  /** The entry after k ticks */
  function Ticked(e: Entry, servers: Servers, l: Limits, k: nat): Entry {
    if k == 0 then e else Checked(Ticked(e, servers, l, k - 1), servers, l, 0).0
  }

  /** Tick k, counted from 1, tells the callbacks that the query has failed. */
  predicate FailsAt(e: Entry, servers: Servers, l: Limits, k: nat) {
    0 < k && Checked(Ticked(e, servers, l, k - 1), servers, l, 0).1 == Answer(None)
  }

  /** How often the query is sent in the first k ticks. */
  function Resent(e: Entry, servers: Servers, l: Limits, k: nat): nat {
    if k == 0 then 0
    else
      var before := Ticked(e, servers, l, k - 1);
      Resent(e, servers, l, k - 1)
      + if before.state.Asking? && before.tmr == 1 && !Checked(before, servers, l, 0).1.Answer? then 1 else 0
  }

  /** One tick of a query whose servers are there. */
  lemma OneTick(e: Entry, servers: Servers, l: Limits)
    requires l.Valid() && |servers| == l.servers && e.state.Asking? && Settled(e, l) && e.serverIdx < Turns(e, servers)
    ensures 0 <= Elapsed(e, l) < PerServer(l)
    ensures var (e', v) := Checked(e, servers, l, 0);
      if Elapsed(e, l) + 1 < PerServer(l) then
        v == Wait && Settled(e', l) && e'.state.Asking? && e'.mdns == e.mdns
        && e'.serverIdx == e.serverIdx && Elapsed(e', l) == Elapsed(e, l) + 1
        && e'.retries == e.retries + if e.tmr == 1 then 1 else 0
      else if e.serverIdx + 1 < Turns(e, servers) then
        v == Wait && Settled(e', l) && e'.state.Asking? && e'.mdns == e.mdns
        && e'.serverIdx == e.serverIdx + 1 && Elapsed(e', l) == 0
        && e'.retries == 0 && e.tmr == 1 && e.retries + 1 == l.retries
      else v == Answer(None) && e'.state.Unused?
  {
    RetriesBound(e.retries, l.retries);
    LastElapsed(e, l);
  }

  /** The ticks of a server are over with the last one of its last retry. */
  lemma LastElapsed(e: Entry, l: Limits)
    requires l.Valid() && Running(e, l)
    ensures Elapsed(e, l) + 1 == PerServer(l) <==> e.tmr == 1 && e.retries + 1 == l.retries
    ensures e.retries + 1 < l.retries ==> SumRange(e.retries + 1, l.retries) == e.retries + 1 + SumRange(e.retries + 2, l.retries)
  {
  }

  /** A query that nobody answers: every server in turn has 1 + retries * (retries - 1) / 2 ticks, in which it is asked
      as often as there are retries, and only after the last tick of the last server do the callbacks hear of it. */
  lemma {:induction false} EveryServerHasItsTurn(e: Entry, servers: Servers, l: Limits, k: nat)
    requires l.Valid() && |servers| == l.servers && JustStarted(e) && 0 < Turns(e, servers)
    requires k <= Turns(e, servers) * PerServer(l)
    ensures k < Turns(e, servers) * PerServer(l) ==>
      var now := Ticked(e, servers, l, k);
      && now.state.Asking? && Settled(now, l) && now.mdns == e.mdns && !FailsAt(e, servers, l, k)
      && now.serverIdx < Turns(e, servers) && k == now.serverIdx * PerServer(l) + Elapsed(now, l)
      && Resent(e, servers, l, k) == now.serverIdx * l.retries + now.retries
    ensures k == Turns(e, servers) * PerServer(l) ==> FailsAt(e, servers, l, k) && Ticked(e, servers, l, k).state.Unused?
  {
    hide Checked, Settled, Elapsed, PerServer, Leading;
    if k == 0 {
      StartsAtZero(e, l);
    } else {
      EveryServerHasItsTurn(e, servers, l, k - 1);
      var before, n, turn := Ticked(e, servers, l, k - 1), Turns(e, servers), PerServer(l);
      OneTick(before, servers, l);
      Distribute(before.serverIdx, 1, turn);
      Distribute(before.serverIdx, 1, l.retries);
      TurnIs(before.serverIdx, Elapsed(before, l), n, turn);
    }
  }

  /** Before the last turn is over, the next tick fails exactly if it is the last of all. */
  lemma FailsAtTheEnd(e: Entry, servers: Servers, l: Limits, k: nat)
    requires l.Valid() && |servers| == l.servers && JustStarted(e) && 0 < Turns(e, servers)
    ensures k < Turns(e, servers) * PerServer(l) ==>
      (Checked(Ticked(e, servers, l, k), servers, l, 0).1.Answer? <==> k + 1 == Turns(e, servers) * PerServer(l))
  {
    hide Checked, Settled, Elapsed, PerServer, Leading, Turns;
    if k < Turns(e, servers) * PerServer(l) {
      EveryServerHasItsTurn(e, servers, l, k);
      EveryServerHasItsTurn(e, servers, l, k + 1);
      SameTurns(e, Ticked(e, servers, l, k), servers);
      OneTick(Ticked(e, servers, l, k), servers, l);
    }
  }

  lemma SameTurns(e: Entry, e': Entry, servers: Servers)
    requires e'.mdns == e.mdns
    ensures Turns(e', servers) == Turns(e, servers)
  {
  }

  /** Which server a query asks after k ticks */
  lemma WhoseTurn(e: Entry, servers: Servers, l: Limits, k: nat)
    requires l.Valid() && |servers| == l.servers && JustStarted(e) && k < Turns(e, servers) * PerServer(l)
    ensures var now := Ticked(e, servers, l, k);
      now.state.Asking? && now.serverIdx < Turns(e, servers) && now.serverIdx == k / PerServer(l)
  {
    hide Checked, Settled, Elapsed, PerServer, Leading, Turns;
    EveryServerHasItsTurn(e, servers, l, k);
    var now := Ticked(e, servers, l, k);
    SameTurns(e, now, servers);
    OneTick(now, servers, l);
    DivUnique(k, PerServer(l), now.serverIdx, Elapsed(now, l));
  }

  lemma StartsAtZero(e: Entry, l: Limits)
    requires l.Valid() && JustStarted(e)
    ensures Settled(e, l) && Elapsed(e, l) == 0 && 0 < PerServer(l)
  {
  }

  /** Turn s of n has come to its last tick exactly if the next tick begins turn s + 1. */
  lemma TurnIs(s: nat, x: int, n: nat, turn: nat)
    requires 0 <= x < turn && s < n
    ensures s * turn + x + 1 <= n * turn && (s * turn + x + 1 == n * turn <==> s + 1 == n && x + 1 == turn)
  {
    Distribute(s, 1, turn);
    Distribute(n - s - 1, s + 1, turn);
    assert 0 <= (n - s - 1) * turn && (s + 1 < n ==> turn <= (n - s - 1) * turn) by { if s + 1 < n { Distribute(n - s - 2, 1, turn); } }
  }

  /** A resolved address is kept for as many ticks as its time to live says, and then forgotten. */
  lemma {:induction false} CachedForItsTime(e: Entry, servers: Servers, l: Limits, k: nat)
    requires e.state.Done? && 0 < e.ttl && k <= e.ttl
    ensures var now := Ticked(e, servers, l, k);
      if k < e.ttl then now == e.(ttl := e.ttl - k) else now.state.Unused?
    ensures !FailsAt(e, servers, l, k)
  {
    if k != 0 { CachedForItsTime(e, servers, l, k - 1); }
  }
}
