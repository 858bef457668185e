/** The DNS client: the table of queries and the requests waiting for them, changed in
    place by lookups, timer ticks and responses. */
module Dns {
  import opened DnsTable
  import opened Prelude

  type Reply = (nat, Option<Address>)

  // ---------- Requests as values ----------

  predicate WaitsFor(r: Request, idx: nat) { r.found.Some? && r.tableIdx == idx }

  function Cleared(rs: seq<Request>, idx: nat): (r: seq<Request>)
    ensures |r| == |rs|
    ensures forall i :: 0 <= i < |rs| ==> r[i] == if WaitsFor(rs[i], idx) then rs[i].(found := None) else rs[i]
  {
    if rs == [] then []
    else Cleared(rs[..|rs| - 1], idx) + [if WaitsFor(rs[|rs| - 1], idx) then rs[|rs| - 1].(found := None) else rs[|rs| - 1]]
  }

  /** The callbacks for entry idx, in the order of the request table. */
  function Replies(rs: seq<Request>, idx: nat, addr: Option<Address>): seq<Reply> {
    if rs == [] then []
    else
      var last := rs[|rs| - 1];
      Replies(rs[..|rs| - 1], idx, addr) + if WaitsFor(last, idx) then [(last.found.value, addr)] else []
  }

  /** The callbacks still to be called. */
  ghost function Pending(rs: seq<Request>): multiset<nat> {
    if rs == [] then multiset{}
    else Pending(rs[..|rs| - 1]) + if rs[|rs| - 1].found.Some? then multiset{rs[|rs| - 1].found.value} else multiset{}
  }

  function Ids(log: seq<Reply>): seq<nat> { seq(|log|, i requires 0 <= i < |log| => log[i].0) }

  /** The callbacks a log of replies has called. */
  ghost function Called(log: seq<Reply>): multiset<nat> { multiset(Ids(log)) }

  /** The callback a request waits for, if any. */
  ghost function One(r: Request): multiset<nat> { if r.found.Some? then multiset{r.found.value} else multiset{} }

  lemma PendingLast(front: seq<Request>, last: Request)
    ensures Pending(front + [last]) == Pending(front) + One(last)
  {
    assert (front + [last])[..|front|] == front;
  }

  lemma ClearedLast(front: seq<Request>, last: Request, idx: nat)
    ensures Cleared(front + [last], idx) == Cleared(front, idx) + [if WaitsFor(last, idx) then last.(found := None) else last]
  {
    assert (front + [last])[..|front|] == front;
  }

  lemma RepliesLast(front: seq<Request>, last: Request, idx: nat, addr: Option<Address>)
    ensures Replies(front + [last], idx, addr)
         == Replies(front, idx, addr) + if WaitsFor(last, idx) then [(last.found.value, addr)] else []
  {
    assert (front + [last])[..|front|] == front;
  }

  lemma CalledAlone(more: seq<Reply>)
    ensures |more| == 0 ==> Called(more) == multiset{}
    ensures |more| == 1 ==> Called(more) == multiset{more[0].0}
  {
    if |more| == 1 { assert Ids(more) == [more[0].0]; }
  }

  lemma EmptyPending(idx: nat, addr: Option<Address>)
    ensures Cleared([], idx) == [] && Pending([]) == multiset{} && Called(Replies([], idx, addr)) == multiset{}
  {
  }

  lemma CalledConcat(a: seq<Reply>, b: seq<Reply>)
    ensures Called(a + b) == Called(a) + Called(b)
  {
    assert Ids(a + b) == Ids(a) + Ids(b);
  }

  /** Answering an entry turns exactly its pending callbacks into called ones. */
  lemma {:induction false} AnswerConserves(rs: seq<Request>, idx: nat, addr: Option<Address>)
    ensures Pending(rs) == Pending(Cleared(rs, idx)) + Called(Replies(rs, idx, addr))
  {
    hide Pending, Cleared, Replies, Called, Ids;
    if rs == [] {
      EmptyPending(idx, addr);
    } else {
      var front, last := rs[..|rs| - 1], rs[|rs| - 1];
      assert rs == front + [last];
      var more: seq<Reply> := if WaitsFor(last, idx) then [(last.found.value, addr)] else [];
      AnswerConserves(front, idx, addr);
      PendingLast(front, last);
      ClearedLast(front, last, idx);
      PendingLast(Cleared(front, idx), if WaitsFor(last, idx) then last.(found := None) else last);
      RepliesLast(front, last, idx, addr);
      CalledConcat(Replies(front, idx, addr), more);
      CalledAlone(more);
    }
  }

  lemma {:induction false} PendingUpdate(rs: seq<Request>, r: nat, req: Request)
    requires r < |rs| && rs[r].found.None? && req.found.Some?
    ensures Pending(rs[r := req]) == Pending(rs) + multiset{req.found.value}
  {
    hide Pending;
    var front, last := rs[..|rs| - 1], rs[|rs| - 1];
    assert rs == front + [last];
    PendingLast(front, last);
    if r == |rs| - 1 {
      assert rs[r := req] == front + [req];
      PendingLast(front, req);
    } else {
      assert rs[r := req] == front[r := req] + [last];
      PendingLast(front[r := req], last);
      PendingUpdate(front, r, req);
    }
  }

  // ---------- Transaction identifiers ----------

  ghost predicate DistinctTxids(t: seq<Entry>) {
    forall i, j :: 0 <= i < j < |t| && t[i].state.Asking? && t[j].state.Asking? ==> t[i].txid != t[j].txid
  }

  /** The identifiers of the queries in progress. */
  function InUse(t: seq<Entry>): (r: set<nat>)
    ensures |r| <= |t|
    ensures forall x :: x in r <==> exists i :: 0 <= i < |t| && t[i].state.Asking? && t[i].txid == x
  {
    if t == [] then {}
    else
      var front, last := t[..|t| - 1], t[|t| - 1];
      assert forall i :: 0 <= i < |front| ==> t[i] == front[i];
      InUse(front) + if last.state.Asking? then {last.txid} else {}
  }

  /** The n identifiers the counter gives after `start`. */
  function Drawn(start: nat, n: nat): set<nat> {
    if n == 0 then {} else Drawn(start, n - 1) + {(start + n) % TXIDS}
  }

  lemma {:induction false} DrawnAreDistinct(start: nat, n: nat, k: nat)
    requires n < k && k - n < TXIDS && k < TXIDS
    ensures (start + k) % TXIDS !in Drawn(start, n)
  {
    if n != 0 { DrawnAreDistinct(start, n - 1, k); }
  }

  // ---------- The client ----------

  /** dns_seqno and the identifiers are unsigned 8- and 16-bit counters. */
  const SEQNOS := 0x100
  const TXIDS := 0x10000

  datatype Answer = Malformed | Other | HostA(bits: nat, ttl: nat) | HostAAAA(bits: nat, ttl: nat)

  datatype Question = QuestionA | QuestionAAAA | QuestionOther

  /** What dns_recv reads out of a packet; `names` says for which host names dns_compare_name accepts it. */
  datatype Packet = Packet(
    complete: bool, txid: nat, response: bool, questions: nat, from: nat,
    names: seq<byte> -> bool, question: Question, error: bool, answers: seq<Answer>)

  /** A waiting request waits for a query in progress and is younger than the bound allows:
      its age and the ticks the query has left add up to no more than the bound plus `slack`. */
  ghost predicate Timely(l: Limits, t: seq<Entry>, q: Request, born: nat, clock: nat, slack: nat) {
    q.found.Some? ==>
      && q.tableIdx < |t| && t[q.tableIdx].state.Asking? && t[q.tableIdx].serverIdx < l.servers
      && born <= clock && clock - born + Ticks(t[q.tableIdx], l) <= Bound(l) + slack
  }

  /** What a caller of dns_gethostbyname has asked for */
  datatype Wanted = Wanted(name: seq<byte>, addrType: AddrType)

  /** The query that a request waits for is for the name its caller asked for, as far as there is room for it and but
      for the case of letters, and for the address family asked for, or the one to fall back to. */
  ghost predicate Meant(t: seq<Entry>, q: Request, w: Wanted) {
    q.found.Some? ==>
      && q.tableIdx < |t| && |t[q.tableIdx].name| == Min(|w.name|, 255)
      && (forall k :: 0 <= k < |t[q.tableIdx].name| ==> Lower(t[q.tableIdx].name[k]) == Lower(w.name[k]))
      && (t[q.tableIdx].addrType == w.addrType
          || (w.addrType.V4V6? && t[q.tableIdx].addrType.V6?) || (w.addrType.V6V4? && t[q.tableIdx].addrType.V4?))
  }

  /** The checks dns_recv makes before it believes that a packet answers a query. */
  predicate Matches(e: Entry, servers: Servers, pkt: Packet) {
    && pkt.response && pkt.questions == 1
    && (e.mdns || (e.serverIdx < |servers| && servers[e.serverIdx] == Some(pkt.from)))
    && pkt.names(e.name)
    && pkt.question == if e.addrType.IsV6() then QuestionAAAA else QuestionA
  }

  /** What makes a packet the answer to the query e: it is a response with one question, for this name and family, and
      comes from the server that is asked at the moment, or to an mDNS query. */
  ghost predicate Authentic(e: Entry, servers: Servers, pkt: Packet) {
    && pkt.response && pkt.questions == 1 && pkt.names(e.name)
    && (e.mdns || (e.serverIdx < |servers| && servers[e.serverIdx].Some? && servers[e.serverIdx].value == pkt.from))
    && (e.addrType.V4? || e.addrType.V4V6? ==> pkt.question.QuestionA?)
    && (e.addrType.V6? || e.addrType.V6V4? ==> pkt.question.QuestionAAAA?)
  }

  /** Record k is the first that is malformed or an address of the family asked for. */
  ghost predicate Decides(answers: seq<Answer>, v6: bool, k: nat) {
    && k < |answers| && Deciding(answers[k], v6) && forall j :: 0 <= j < k ==> !Deciding(answers[j], v6)
  }

  ghost predicate Deciding(a: Answer, v6: bool) { a.Malformed? || if v6 then a.HostAAAA? else a.HostA? }

  /** A query that has been sent anew, to a server that is there, or could not be */
  ghost predicate Anew(e: Entry, serverIdx: nat, addrType: AddrType, servers: Servers, e': Entry, v: Verdict) {
    if e.mdns || (serverIdx < |servers| && servers[serverIdx].Some?) then
      v == Wait && e'.state.Asking? && e'.serverIdx == serverIdx && e'.tmr == 1 && e'.retries == 0
      && e'.addrType == addrType && e'.name == e.name && e'.mdns == e.mdns
    else v == Answer(None) && e'.state.Unused?
  }

  /** What a packet does to the query it has the identifier of, case by case. */
  ghost predicate Reaction(e: Entry, servers: Servers, pkt: Packet, e': Entry, v: Verdict) {
    var v6 := e.addrType.V6? || e.addrType.V6V4?;
    && (!Authentic(e, servers, pkt) ==> e' == e && v == Wait)
    && (Authentic(e, servers, pkt) && pkt.error ==>
          if e.serverIdx + 1 < |servers| && servers[e.serverIdx + 1].Some? && !e.mdns then Anew(e, e.serverIdx + 1, e.addrType, servers, e', v)
          else v == Answer(None) && e'.state.Unused?)
    && (Authentic(e, servers, pkt) && !pkt.error ==>
          (forall k: nat :: Decides(pkt.answers, v6, k) ==> Decided(e, pkt.answers[k], e', v))
          && ((forall k :: 0 <= k < |pkt.answers| ==> !Deciding(pkt.answers[k], v6)) ==>
                match e.addrType
                case V4V6 => Anew(e, 0, V6, servers, e', v)
                case V6V4 => Anew(e, 0, V4, servers, e', v)
                case _ => v == Answer(None) && e'.state.Unused?))
  }

  /** The address of the record is handed out, and kept for its time to live, a week at most; a malformed record makes the
      whole packet void. */
  ghost predicate Decided(e: Entry, a: Answer, e': Entry, v: Verdict) {
    match a
    case Malformed => e' == e && v == Wait
    case Other => false
    case HostA(bits, ttl) =>
      v == Answer(Some(IPv4(bits))) && e'.ipaddr == IPv4(bits) && e'.ttl == Min(ttl, 604800) && e'.name == e.name
      && (if ttl == 0 then e'.state.Unused? else e'.state.Done?)
    case HostAAAA(bits, ttl) =>
      v == Answer(Some(IPv6(bits))) && e'.ipaddr == IPv6(bits) && e'.ttl == Min(ttl, 604800) && e'.name == e.name
      && (if ttl == 0 then e'.state.Unused? else e'.state.Done?)
  }

  /** A reply with this address about this name is one to what was asked for. */
  ghost predicate Serves(w: Wanted, name: seq<byte>, addr: Option<Address>) {
    && |name| == Min(|w.name|, 255) && (forall k :: 0 <= k < |name| ==> Lower(name[k]) == Lower(w.name[k]))
    && (addr.Some? && w.addrType.V4? ==> addr.value.IPv4?) && (addr.Some? && w.addrType.V6? ==> addr.value.IPv6?)
  }

  /** The reply goes to a request that waits for entry i and has asked for this name. */
  ghost predicate AskedFor(rs: seq<Request>, wanted: seq<Wanted>, i: nat, name: seq<byte>, reply: Reply) {
    exists r :: 0 <= r < |rs| && r < |wanted| && rs[r] == Request(Some(reply.0), i) && Serves(wanted[r], name, reply.1)
  }

  /** The first answer record that decides about the packet. */
  function FirstUsable(answers: seq<Answer>, v6: bool): Option<Answer> {
    if answers == [] then None
    else
      var a := answers[0];
      if a.Malformed? || (a.HostA? && !v6) || (a.HostAAAA? && v6) then Some(a) else FirstUsable(answers[1..], v6)
  }

  function AddressOf(a: Answer): Address
    requires a.HostA? || a.HostAAAA?
  {
    if a.HostA? then IPv4(a.bits) else IPv6(a.bits)
  }

  /** A resolved entry: kept for its time to live, or flushed at once if that is 0. */
  function Finished(e: Entry, addr: Address, ttl: nat): Entry {
    e.(ipaddr := addr, ttl := if MAX_TTL < ttl then MAX_TTL else ttl,
       state := if ttl == 0 then Unused else Done, addrType := if addr.IPv6? then V6 else V4)
  }

  /** What a packet does to the query it has the identifier of. */
  function Reacted(e: Entry, servers: Servers, l: Limits, pkt: Packet, txid: nat): (Entry, Verdict)
    requires l.Valid()
  {
    var usable := FirstUsable(pkt.answers, e.addrType.IsV6());
    if !Matches(e, servers, pkt) then (e, Wait)
    else if pkt.error then
      if BackupAvailable(e, servers) then Checked(e.(retries := l.retries - 1, tmr := 1), servers, l, txid)
      else (e.(state := Unused), Answer(None))
    else if usable.Some? then
      if usable.value.HostA? || usable.value.HostAAAA? then
        (Finished(e, AddressOf(usable.value), usable.value.ttl), Answer(Some(AddressOf(usable.value))))
      else (e, Wait)
    else if e.addrType.Falls() then
      Checked(e.(addrType := e.addrType.Fallback(), state := New), servers, l, txid)
    else (e.(state := Unused), Answer(None))
  }

  lemma AuthenticMatches(e: Entry, servers: Servers, pkt: Packet)
    ensures Matches(e, servers, pkt) <==> Authentic(e, servers, pkt)
    ensures Matches(e, servers, pkt) ==> pkt.response && pkt.questions == 1 && pkt.names(e.name)
    ensures Matches(e, servers, pkt) && !e.mdns ==> e.serverIdx < |servers| && servers[e.serverIdx] == Some(pkt.from)
  {
  }

  lemma {:induction false} FirstDecides(answers: seq<Answer>, v6: bool)
    ensures FirstUsable(answers, v6).None? <==> forall k :: 0 <= k < |answers| ==> !Deciding(answers[k], v6)
    ensures forall k: nat :: Decides(answers, v6, k) ==> FirstUsable(answers, v6) == Some(answers[k])
  {
    if answers != [] && !Deciding(answers[0], v6) {
      FirstDecides(answers[1..], v6);
      assert forall k :: 0 < k < |answers| ==> answers[k] == answers[1..][k - 1];
      forall k: nat | Decides(answers, v6, k) ensures FirstUsable(answers, v6) == Some(answers[k]) {
        assert Decides(answers[1..], v6, k - 1) by {
          assert forall j :: 0 <= j < k - 1 ==> answers[1..][j] == answers[j + 1];
        }
      }
    }
  }

  lemma ReactedIs(e: Entry, servers: Servers, l: Limits, pkt: Packet, txid: nat)
    requires l.Valid() && |servers| == l.servers && e.state.Asking? && Settled(e, l)
    ensures var (e', v) := Reacted(e, servers, l, pkt, txid); Reaction(e, servers, pkt, e', v)
    ensures var (e', v) := Reacted(e, servers, l, pkt, txid);
      v.Answer? && v.addr.Some? ==> (v.addr.value.IPv6? <==> e.addrType.V6? || e.addrType.V6V4?)
    ensures var (e', v) := Reacted(e, servers, l, pkt, txid);
      e' != e || v.Answer? ==> pkt.response && pkt.questions == 1 && pkt.names(e.name)
    ensures var (e', v) := Reacted(e, servers, l, pkt, txid);
      (e' != e || v.Answer?) && !e.mdns ==> e.serverIdx < |servers| && servers[e.serverIdx] == Some(pkt.from)
  {
    hide Matches, Authentic, FirstUsable, Deciding, Decides;
    AuthenticMatches(e, servers, pkt);
    FirstDecides(pkt.answers, e.addrType.IsV6());
    FirstIs(pkt.answers, e.addrType.IsV6());
  }

  lemma {:induction false} FirstIs(answers: seq<Answer>, v6: bool)
    ensures var a := FirstUsable(answers, v6); a.Some? ==> a.value.Malformed? || if v6 then a.value.HostAAAA? else a.value.HostA?
  {
    if answers != [] { FirstIs(answers[1..], v6); }
  }

  /** The two ways dns_recv sets an entry up for another attempt. */
  predicate RestartsFrom(e: Entry, e': Entry, servers: Servers, l: Limits)
    requires l.Valid()
  {
    || (BackupAvailable(e, servers) && e' == e.(retries := l.retries - 1, tmr := 1))
    || (e.addrType.Falls() && e' == e.(addrType := e.addrType.Fallback(), state := New))
  }

  /** DNS_MAX_NAME_LENGTH */
  const MAX_NAME_LENGTH := 256

  function Lowered(s: seq<byte>): seq<byte> { seq(|s|, i requires 0 <= i < |s| => Lower(s[i])) }

  /** The part of a host name that an entry has room for. */
  function Shortened(hostname: seq<byte>): seq<byte> { hostname[..Min(|hostname|, MAX_NAME_LENGTH - 1)] }

  /** The query in progress is for this name, but for the case of letters and what there is no room for, and this family. */
  ghost predicate SameQuery(e: Entry, hostname: seq<byte>, addrType: AddrType) {
    && e.state.Asking? && e.addrType == addrType && |e.name| == Min(|hostname|, 255)
    && forall k :: 0 <= k < |e.name| ==> Lower(e.name[k]) == Lower(hostname[k])
  }

  lemma JoinsIff(e: Entry, hostname: seq<byte>, addrType: AddrType)
    ensures Joins(e, Shortened(hostname), addrType) <==> SameQuery(e, hostname, addrType)
    ensures SameQuery(e, hostname, addrType) ==> e.state.Asking?
  {
    var a, b := Lowered(e.name), Lowered(Shortened(hostname));
    assert |a| == |e.name| && |b| == Min(|hostname|, 255);
    assert forall k :: 0 <= k < |a| ==> a[k] == Lower(e.name[k]);
    assert forall k :: 0 <= k < |b| ==> b[k] == Lower(hostname[k]);
    if a == b { assert forall k :: 0 <= k < |a| ==> a[k] == b[k]; }
    if SameQuery(e, hostname, addrType) { assert a == b; }
  }

  /** A request for the name can wait for the query in progress. */
  predicate Joins(e: Entry, name: seq<byte>, addrType: AddrType) {
    e.state.Asking? && Lowered(e.name) == Lowered(name) && e.addrType == addrType
  }

  function NewEntry(e: Entry, seqno: nat, name: seq<byte>, addrType: AddrType, mdns: bool): Entry {
    e.(state := New, seqno := seqno, addrType := addrType, name := name, mdns := mdns)
  }

  /** The entry of a query that could not be started. */
  function GivenBack(e: Entry, seqno: nat, name: seq<byte>, addrType: AddrType): Entry {
    e.(state := Unused, seqno := seqno, addrType := addrType, name := name)
  }

  class Client {
    const l: Limits
    const table: array<Entry>
    const requests: array<Request>
    const servers: array<Option<nat>>
    var seqno: nat
    var txid: nat

    /** The callbacks of all requests accepted so far, and all calls of callbacks made so far. */
    ghost var accepted: multiset<nat>
    ghost var log: seq<Reply>
    /** Timer ticks so far, and when each waiting request was accepted. */
    ghost var clock: nat
    ghost var born: seq<nat>
    /** What each request has asked for, and all queries sent so far. */
    ghost var wanted: seq<Wanted>
    ghost var sent: seq<Query>

    ghost predicate Shape()
      reads this, table, requests, servers
    {
      && l.Valid() && 0 < table.Length < 0x100 && 0 < requests.Length < 0x100 && servers.Length == l.servers
      && |born| == |wanted| == requests.Length && seqno < SEQNOS && txid < TXIDS
      && table != servers as object && requests != servers as object && table != requests as object
    }

    ghost predicate Accounts()
      reads this, requests
    {
      accepted == Called(log) + Pending(requests[..])
    }

    /** What holds between calls. */
    ghost predicate Valid()
      reads this, table, requests, servers
    {
      && Shape()
      && (forall i :: 0 <= i < table.Length ==> Settled(table[i], l))
      && DistinctTxids(table[..])
      && Accounts()
      && (forall r :: 0 <= r < requests.Length ==> Timely(l, table[..], requests[r], born[r], clock, 0))
      && AllMeant()
    }

    ghost predicate AllMeant()
      reads this, table, requests
      requires |wanted| == requests.Length
    {
      forall r :: 0 <= r < requests.Length ==> Meant(table[..], requests[r], wanted[r])
    }

    constructor (l: Limits, tableSize: nat, maxRequests: nat)
      requires l.Valid() && 0 < tableSize < 0x100 && 0 < maxRequests < 0x100
      ensures Valid() && accepted == multiset{} && log == [] && sent == []
    {
      this.l := l;
      table := new Entry[tableSize](_ => Entry(Unused, 0, 0, 0, 0, 0, [], V4, false, 0, IPv4(0)));
      requests := new Request[maxRequests](_ => Request(None, 0));
      servers := new Option<nat>[l.servers](_ => None);
      seqno, txid := 0, 0;
      accepted, log, clock := multiset{}, [], 0;
      born, wanted, sent := seq(maxRequests, _ => 0), seq(maxRequests, _ => Wanted([], V4)), [];
      new;
      NothingPending(requests[..]);
    }

    method Clashes(x: nat) returns (clash: bool)
      ensures clash == (x in InUse(table[..]))
    {
      for i := 0 to table.Length
        invariant forall j :: 0 <= j < i ==> !(table[j].state.Asking? && table[j].txid == x)
      {
        if table[i].state.Asking? && table[i].txid == x {
          return true;
        }
      }
      return false;
    }

    /** dns_create_txid with the counting DNS_RAND_TXID: by the pigeonhole principle one of
        the next identifiers is free. */
    method CreateTxid() returns (t: nat)
      requires Shape()
      modifies this`txid
      ensures txid < TXIDS && t == txid && t !in InUse(table[..])
    {
      hide InUse, TriedInVain;
      ghost var start, tried := txid, 0;
      NothingTried(table[..], start);
      while true
        invariant tried <= table.Length && txid < TXIDS
        invariant TriedInVain(table[..], start, tried, txid)
        decreases table.Length - tried
      {
        ghost var before := txid;
        txid := (txid + 1) % TXIDS;
        var clash := Clashes(txid);
        if !clash {
          return txid;
        }
        OneMoreTry(table[..], start, tried, before);
        tried := tried + 1;
      }
    }

    /** dns_call_found: call every callback that waits for the entry, and forget it. */
    method CallFound(idx: nat, addr: Option<Address>)
      requires Shape()
      modifies requests, this`log
      ensures requests[..] == Cleared(old(requests[..]), idx)
      ensures log == old(log) + Replies(old(requests[..]), idx, addr)
      ensures old(Accounts()) ==> Accounts()
    {
      hide Pending, Called, Replies, Cleared;
      ghost var rs := requests[..];
      ClearedSpec(rs, idx);
      for i := 0 to requests.Length
        invariant requests[..i] == Cleared(rs, idx)[..i] && requests[i..] == rs[i..]
        invariant log == old(log) + Replies(rs[..i], idx, addr)
      {
        ghost var was := log;
        if requests[i].found.Some? && requests[i].tableIdx == idx {
          log := log + [(requests[i].found.value, addr)];
          requests[i] := requests[i].(found := None);
        }
        RepliesNext(rs, idx, addr, i);
      }
      assert rs[..requests.Length] == rs;
      assert requests[..] == Cleared(rs, idx);
      AnswerConserves(rs, idx, addr);
      CalledConcat(old(log), Replies(rs, idx, addr));
    }

    /** dns_send; the packet itself is left to DnsName. */
    method Send(i: nat) returns (ghost v: Verdict)
      requires Shape() && i < table.Length && table[i].serverIdx < l.servers
      modifies table, requests, this`log, this`sent
      ensures (table[i], v) == Sent(old(table[i]), servers[..])
      ensures table[..] == old(table[..])[i := table[i]]
      ensures if v.Answer? then requests[..] == Cleared(old(requests[..]), i)
                && log == old(log) + Replies(old(requests[..]), i, None)
              else requests[..] == old(requests[..]) && log == old(log)
      ensures old(Accounts()) ==> Accounts()
      ensures sent == if v.Answer? then old(sent) else old(sent) + [QueryOf(table[i], servers[..])]
    {
      hide InUse, Pending, Called, Cleared, Replies, QueryOf;
      v := Wait;
      if servers[table[i].serverIdx].None? && !table[i].mdns {
        CallFound(i, None);
        table[i] := table[i].(state := Unused);
        v := Answer(None);
        return;
      }
      sent := sent + [QueryOf(table[i], servers[..])];
    }

    /** The case of dns_check_entry for a new entry. */
    method StartQuery(i: nat) returns (ghost v: Verdict)
      requires Shape() && i < table.Length && DistinctTxids(table[..]) && Accounts()
      requires table[i].state.New?
      modifies table, requests, this`log, this`sent, this`txid
      ensures Shape() && DistinctTxids(table[..]) && Accounts()
      ensures (table[i], v) == Checked(old(table[i]), servers[..], l, txid)
      ensures table[..] == old(table[..])[i := table[i]]
      ensures if v.Answer? then requests[..] == Cleared(old(requests[..]), i)
                && log == old(log) + Replies(old(requests[..]), i, None)
              else requests[..] == old(requests[..]) && log == old(log)
      ensures sent == if v.Answer? then old(sent) else old(sent) + [QueryOf(table[i], servers[..])]
    {
      hide InUse, DistinctTxids, Pending, Called, Cleared, Replies;
      ghost var t0 := table[..];
      var t := CreateTxid();
      table[i] := table[i].(txid := t, state := Asking, serverIdx := 0, tmr := 1, retries := 0);
      v := Send(i);
      FreshTxid(t0, table[..], i);
    }

    /** The case of dns_check_entry for a query in progress. */
    method CheckAsking(i: nat) returns (ghost v: Verdict)
      requires Shape() && i < table.Length && DistinctTxids(table[..]) && Accounts()
      requires table[i].state.Asking? && Settled(table[i], l)
      modifies table, requests, this`log, this`sent, this`txid
      ensures Shape() && DistinctTxids(table[..]) && Accounts()
      ensures (table[i], v) == Checked(old(table[i]), servers[..], l, txid)
      ensures table[..] == old(table[..])[i := table[i]]
      ensures if v.Answer? then requests[..] == Cleared(old(requests[..]), i)
                && log == old(log) + Replies(old(requests[..]), i, None)
              else requests[..] == old(requests[..]) && log == old(log)
      ensures sent == if v.Answer? || old(table[i]).tmr != 1 then old(sent) else old(sent) + [QueryOf(table[i], servers[..])]
    {
      hide InUse, DistinctTxids, Pending, Called, Cleared, Replies;
      ghost var t0 := table[..];
      v := Wait;
      var e := table[i];
      e := e.(tmr := e.tmr - 1);
      table[i] := e;
      if e.tmr == 0 {
        e := e.(retries := e.retries + 1);
        if e.retries == l.retries {
          if BackupAvailable(e, servers[..]) && !e.mdns {
            e := e.(serverIdx := e.serverIdx + 1, tmr := 1, retries := 0);
          } else {
            CallFound(i, None);
            table[i] := e.(state := Unused);
            v := Answer(None);
            SameTxid(t0, table[..], i);
            return;
          }
        } else {
          e := e.(tmr := e.retries);
        }
        table[i] := e;
        v := Send(i);
      }
      SameTxid(t0, table[..], i);
    }

    /** dns_check_entry */
    method CheckEntry(i: nat) returns (ghost v: Verdict)
      requires Shape() && i < table.Length && DistinctTxids(table[..]) && Accounts()
      requires table[i].state.New? || Settled(table[i], l)
      modifies table, requests, this`log, this`sent, this`txid
      ensures Shape() && DistinctTxids(table[..]) && Accounts()
      ensures (table[i], v) == Checked(old(table[i]), servers[..], l, txid)
      ensures table[..] == old(table[..])[i := table[i]]
      ensures if v.Answer? then requests[..] == Cleared(old(requests[..]), i)
                && log == old(log) + Replies(old(requests[..]), i, None)
              else requests[..] == old(requests[..]) && log == old(log)
      ensures sent == if !v.Answer? && (old(table[i]).state.New? || (old(table[i]).state.Asking? && old(table[i]).tmr == 1))
                      then old(sent) + [QueryOf(table[i], servers[..])] else old(sent)
    {
      hide DistinctTxids, Pending, Called, Cleared, Replies;
      v := Wait;
      match table[i].state
      case New => v := StartQuery(i);
      case Asking => v := CheckAsking(i);
      case Done =>
        ghost var t0 := table[..];
        if table[i].ttl != 0 {
          table[i] := table[i].(ttl := table[i].ttl - 1);
        }
        if table[i].ttl == 0 {
          table[i] := table[i].(state := Unused);
        }
        SameTxid(t0, table[..], i);
      case Unused =>
    }

    /** dns_setserver */
    method SetServer(n: nat, server: Option<nat>)
      requires Valid()
      modifies servers
      ensures Valid()
      ensures servers[..] == if n < servers.Length then old(servers[..])[n := server] else old(servers[..])
    {
      if n < servers.Length {
        servers[n] := server;
      }
    }

    /** dns_tmr: check every entry. */
    method Tick()
      requires Valid()
      modifies table, requests, this`log, this`sent, this`txid, this`clock
      ensures Valid() && clock == old(clock) + 1
      ensures old(log) <= log && forall k :: |old(log)| <= k < |log| ==> log[k].1 == None
      ensures forall i :: 0 <= i < table.Length ==> table[i] == Checked(old(table[i]), servers[..], l, 0).0
      ensures forall r :: 0 <= r < requests.Length ==>
        requests[r] == AfterChecks(old(requests[r]), old(table[..]), servers[..], l, table.Length)
      ensures sent == old(sent) + Due(old(table[..]), servers[..], l, table.Length)
    {
      hide InUse, DistinctTxids, Pending, Called, Timely, Meant, Settled, Replies, Cleared, Checked, AfterChecks, Due, QueryOf, Halfway;
      ghost var t, rs := table[..], requests[..];
      clock := clock + 1;
      NoChecks(l, t, servers[..], rs, born, old(clock), wanted);
      for i := 0 to table.Length
        invariant Shape() && DistinctTxids(table[..]) && Accounts() && clock == old(clock) + 1
        invariant forall j :: 0 <= j < table.Length ==>
          table[j] == if j < i then Checked(t[j], servers[..], l, 0).0 else t[j]
        invariant forall j :: 0 <= j < table.Length ==> Settled(table[j], l)
        invariant Halfway(l, t, table[..], servers[..], i, rs, requests[..], born, clock, wanted)
        invariant sent == old(sent) + Due(t, servers[..], l, i)
        invariant old(log) <= log && forall k :: |old(log)| <= k < |log| ==> log[k].1 == None
      {
        ghost var t0, r0, s0, l0 := table[..], requests[..], sent, log;
        ghost var v := CheckEntry(i);
        CheckedTick(t0[i], servers[..], l, txid);
        HalfwayStep(l, t, t0, table[..], servers[..], i, rs, r0, requests[..], v, born, clock, wanted);
        if v.Answer? { RepliesAddr(r0, i, None); }
        OneMoreDue(t, servers[..], l, i, old(sent), s0);
        assert forall j :: 0 <= j < table.Length && j != i ==> table[..][j] == t0[j];
      }
      AllTheWay(l, t, table[..], servers[..], rs, requests[..], born, clock, wanted);
    }

    lemma WaitingIsInside(r: nat)
      requires Valid() && r < requests.Length && requests[r].found.Some?
      ensures requests[r].tableIdx < table.Length && Settled(table[requests[r].tableIdx], l)
      ensures table[requests[r].tableIdx].state.Asking?
    {
    }

    /** n ticks, with nothing received, for a request whose query has just been sent for the first time: it waits, while
        one server after the other has its turn, and hears of a failure with the last tick of the last server. */
    method TickOn(n: nat, r: nat)
      requires Valid() && r < requests.Length && requests[r].found.Some? && JustStarted(table[requests[r].tableIdx])
      requires 0 < Turns(table[requests[r].tableIdx], servers[..])
      modifies table, requests, this`log, this`sent, this`txid, this`clock
      ensures Valid() && clock == old(clock) + n
      ensures var i, turns := old(requests[r]).tableIdx, old(Turns(table[requests[r].tableIdx], servers[..]));
        var all := turns * (1 + l.retries * (l.retries - 1) / 2);
        && (n < all ==> requests[r] == old(requests[r]) && table[i].state.Asking? && table[i].serverIdx < turns
                        && n / (1 + l.retries * (l.retries - 1) / 2) == table[i].serverIdx)
        && (n == all ==> requests[r].found.None?)
    {
      hide InUse, DistinctTxids, Pending, Called, Timely, Meant, Settled, Replies, Cleared, Checked, Due, QueryOf, AfterChecks;
      ghost var i, q, ss := requests[r].tableIdx, requests[r], servers[..];
      WaitingIsInside(r);
      ghost var e := table[i];
      for k := 0 to n
        invariant Valid() && clock == old(clock) + k && servers[..] == ss
        invariant table[i] == Ticked(e, ss, l, k)
        invariant k < Turns(e, ss) * PerServer(l) ==> requests[r] == q
        invariant k == Turns(e, ss) * PerServer(l) ==> requests[r].found.None?
      {
        ghost var before := table[..];
        FailsAtTheEnd(e, ss, l, k);
        Tick();
        AfterTick(q, before, ss, l, i);
      }
      PerServerClosed(l);
      if n < Turns(e, ss) * PerServer(l) {
        WhoseTurn(e, ss, l, n);
      }
    }

    /** dns_correct_response: remember the address and answer everyone who waits for it. */
    method Resolve(i: nat, addr: Address, ttl: nat)
      requires Valid() && i < table.Length && table[i].state.Asking?
      requires addr.IPv6? <==> table[i].addrType.IsV6()
      modifies table, requests, this`log
      ensures Valid() && Finished(old(table[i]), addr, ttl) == table[i]
      ensures table[..] == old(table[..])[i := table[i]]
      ensures requests[..] == Cleared(old(requests[..]), i)
      ensures log == old(log) + Replies(old(requests[..]), i, Some(addr))
    {
      hide InUse, DistinctTxids, Pending, Called, Timely, Replies, Cleared;
      ghost var t0, r0 := table[..], requests[..];
      var kept := if ttl > MAX_TTL then MAX_TTL else ttl;
      table[i] := table[i].(ipaddr := addr, state := Done, ttl := kept, addrType := if addr.IPv6? then V6 else V4);
      CallFound(i, Some(addr));
      if table[i].ttl == 0 {
        table[i] := table[i].(state := Unused);
      }
      Ended(t0, r0, i, Some(addr));
    }

    /** The end of dns_recv: the query failed. */
    method Fail(i: nat)
      requires Valid() && i < table.Length && table[i].state.Asking?
      modifies table, requests, this`log
      ensures Valid() && table[..] == old(table[..])[i := old(table[i]).(state := Unused)]
      ensures requests[..] == Cleared(old(requests[..]), i)
      ensures log == old(log) + Replies(old(requests[..]), i, None)
    {
      hide InUse, DistinctTxids, Pending, Called, Timely, Replies, Cleared;
      ghost var t0, r0 := table[..], requests[..];
      CallFound(i, None);
      table[i] := table[i].(state := Unused);
      Ended(t0, r0, i, None);
    }

    /** Everything is as it should be after the entry i of t0 has come to an end. */
    lemma Ended(t0: seq<Entry>, r0: seq<Request>, i: nat, addr: Option<Address>)
      requires Shape() && Accounts() && i < |t0| == table.Length && |r0| == requests.Length
      requires table[..] == t0[i := table[i]] && (table[i].state.Unused? || table[i].state.Done?)
      requires requests[..] == Cleared(r0, i)
      requires DistinctTxids(t0) && forall j :: 0 <= j < |t0| ==> Settled(t0[j], l)
      requires forall r :: 0 <= r < |r0| ==> Timely(l, t0, r0[r], born[r], clock, 0) && Meant(t0, r0[r], wanted[r])
      ensures Valid()
    {
      hide InUse, Pending, Called, Replies, Timely, Meant;
      SameTxid(t0, table[..], i);
      ClearedSpec(r0, i);
      forall r | 0 <= r < requests.Length ensures Timely(l, table[..], requests[r], born[r], clock, 0) {
        TimelyStep(l, t0, table[..], i, r0[r], requests[..][r], Answer(addr), born[r], clock, 0, 0);
      }
      forall r | 0 <= r < requests.Length ensures Meant(table[..], requests[r], wanted[r]) {
        MeantStep(t0, table[..], i, r0[r], requests[..][r], wanted[r]);
      }
      forall j | 0 <= j < table.Length ensures Settled(table[j], l) { assert table[..][j] == table[j]; }
    }

    /** The entry is changed to e and checked at once. */
    method Restart(i: nat, e: Entry) returns (ghost v: Verdict)
      requires Valid() && i < table.Length && table[i].state.Asking?
      requires |servers[..]| == l.servers && RestartsFrom(table[i], e, servers[..], l)
      modifies table, requests, this`log, this`sent, this`txid
      ensures Valid() && table[..] == old(table[..])[i := table[i]]
      ensures (table[i], v) == Checked(e, servers[..], l, txid) && (v.Answer? ==> v.addr.None?)
      ensures if v.Answer? then requests[..] == Cleared(old(requests[..]), i)
                && log == old(log) + Replies(old(requests[..]), i, None)
              else requests[..] == old(requests[..]) && log == old(log)
      ensures sent == if v.Answer? then old(sent) else old(sent) + [QueryOf(table[i], servers[..])]
      ensures if v.Wait? then table[i].state.Asking? && table[i] != old(table[i]) else table[i].state.Unused?
    {
      hide InUse, DistinctTxids, Pending, Called, Timely, Replies, Cleared, Checked;
      ghost var t0, r0 := table[..], requests[..];
      table[i] := e;
      SameTxid(t0, table[..], i);
      RestartGains(t0[i], e, servers[..], l);
      v := CheckEntry(i);
      RestartChecked(t0[i], e, servers[..], l, txid);
      ClearedSpec(r0, i);
      forall r | 0 <= r < requests.Length ensures Timely(l, table[..], requests[r], born[r], clock, 0) {
        TimelyStep(l, t0, table[..], i, r0[r], requests[..][r], v, born[r], clock, 0, 0);
      }
      forall r | 0 <= r < requests.Length ensures Meant(table[..], requests[r], wanted[r]) {
        MeantStep(t0, table[..], i, r0[r], requests[..][r], wanted[r]);
      }
      forall j | 0 <= j < table.Length ensures Settled(table[j], l) { assert table[..][j] == table[j]; }
    }

    /** The query in progress with the given identifier, if there is one. */
    method FindAsking(id: nat) returns (i: nat)
      ensures i <= table.Length
      ensures i < table.Length ==> table[i].state.Asking? && table[i].txid == id
      ensures i == table.Length ==> id !in InUse(table[..])
    {
      i := 0;
      while i < table.Length
        invariant i <= table.Length
        invariant forall j :: 0 <= j < i ==> !(table[j].state.Asking? && table[j].txid == id)
      {
        if table[i].state.Asking? && table[i].txid == id {
          return;
        }
        i := i + 1;
      }
    }

    lemma Holding()
      requires Valid()
      ensures l.Valid() && servers.Length == l.servers && |wanted| == requests.Length
      ensures forall i :: 0 <= i < table.Length ==> Settled(table[..][i], l)
      ensures forall r :: 0 <= r < requests.Length ==> Meant(table[..], requests[..][r], wanted[r])
    {
    }

    /** dns_recv; `i` is the entry the packet's identifier belongs to, if any. Nothing happens unless the packet is the
        answer to the query of this entry, and whoever hears of it has asked for this name and family. */
    method Recv(pkt: Packet) returns (ghost i: nat, ghost v: Verdict)
      requires Valid()
      modifies table, requests, this`log, this`sent, this`txid
      ensures Valid() && i <= table.Length
      ensures i < table.Length ==> pkt.complete && old(table[i]).state.Asking? && old(table[i]).txid == pkt.txid
      ensures i == table.Length ==> v == Wait && table[..] == old(table[..])
      ensures i == table.Length && pkt.complete ==>
        forall j :: 0 <= j < table.Length && old(table[j]).state.Asking? ==> old(table[j]).txid != pkt.txid
      ensures i < table.Length ==> table[..] == old(table[..])[i := table[i]] && Reaction(old(table[i]), servers[..], pkt, table[i], v)
      ensures i < table.Length ==> (table[i], v) == Reacted(old(table[i]), servers[..], l, pkt, txid)
      ensures i < table.Length && (table[i] != old(table[i]) || v.Answer?) ==> pkt.response && pkt.questions == 1 && pkt.names(old(table[i]).name)
      ensures i < table.Length && (table[i] != old(table[i]) || v.Answer?) && !old(table[i]).mdns ==>
        old(table[i]).serverIdx < servers.Length && servers[old(table[i]).serverIdx] == Some(pkt.from)
      ensures sent == if i < table.Length && table[i] != old(table[i]) && table[i].state.Asking?
                      then old(sent) + [QueryOf(table[i], servers[..])] else old(sent)
      ensures if v.Answer? then requests[..] == Cleared(old(requests[..]), i) else requests[..] == old(requests[..]) && log == old(log)
      ensures old(log) <= log
      ensures v.Answer? ==> forall r :: 0 <= r < requests.Length && WaitsFor(old(requests[r]), i) ==>
        (old(requests[r]).found.value, v.addr) in log[|old(log)|..]
      ensures forall k :: |old(log)| <= k < |log| ==> v.Answer? && log[k].1 == v.addr
      ensures forall k :: |old(log)| <= k < |log| ==> AskedFor(old(requests[..]), wanted, i, old(table[i]).name, log[k])
    {
      hide *;
      ghost var t, rs, before := table[..], requests[..], log;
      Holding();
      i, v := Handle(pkt);
      if i == table.Length && pkt.complete { NotAsking(t, pkt.txid); }
      if i < table.Length {
        ReactedIs(t[i], servers[..], l, pkt, txid);
        if v.Answer? {
          RepliesServe(t, rs, i, v.addr, wanted, before, log);
        }
      }
    }

    /** The body of dns_recv */
    method Handle(pkt: Packet) returns (ghost i: nat, ghost v: Verdict)
      requires Valid()
      modifies table, requests, this`log, this`sent, this`txid
      ensures Valid() && i <= table.Length
      ensures i < table.Length ==> old(table[i]).state.Asking? && old(table[i]).txid == pkt.txid
      ensures i == table.Length <==> !pkt.complete || pkt.txid !in InUse(old(table[..]))
      ensures i == table.Length ==> v == Wait && table[..] == old(table[..])
      ensures i < table.Length ==>
        (table[..] == old(table[..])[i := table[i]]
         && (table[i], v) == Reacted(old(table[i]), servers[..], l, pkt, txid))
      ensures if v.Answer? then requests[..] == Cleared(old(requests[..]), i)
                && log == old(log) + Replies(old(requests[..]), i, v.addr)
              else requests[..] == old(requests[..]) && log == old(log)
      ensures sent == if i < table.Length && table[i] != old(table[i]) && table[i].state.Asking?
                      then old(sent) + [QueryOf(table[i], servers[..])] else old(sent)
    {
      hide InUse, DistinctTxids, Pending, Called, Timely, Replies, Cleared, Checked;
      i, v := table.Length, Wait;
      if !pkt.complete {
        return;
      }
      var k := FindAsking(pkt.txid);
      if k == table.Length {
        return;
      }
      i := k;
      var e := table[k];
      if !Matches(e, servers[..], pkt) {
        return;
      }
      if pkt.error {
        if BackupAvailable(e, servers[..]) {
          // avoid retrying the same server, contact the next one
          v := Restart(k, e.(retries := l.retries - 1, tmr := 1));
          return;
        }
      } else {
        var n := 0;
        while n < |pkt.answers|
          invariant n <= |pkt.answers|
          invariant FirstUsable(pkt.answers, e.addrType.IsV6()) == FirstUsable(pkt.answers[n..], e.addrType.IsV6())
          invariant Valid() && table[..] == old(table[..]) && requests[..] == old(requests[..]) && log == old(log)
          decreases |pkt.answers| - n
        {
          assert pkt.answers[n..][0] == pkt.answers[n] && pkt.answers[n..][1..] == pkt.answers[n + 1..];
          match pkt.answers[n] {
            case Malformed => return;
            case HostA(bits, ttl) =>
              if !e.addrType.IsV6() {
                Resolve(k, IPv4(bits), ttl);
                v := Answer(Some(IPv4(bits)));
                return;
              }
            case HostAAAA(bits, ttl) =>
              if e.addrType.IsV6() {
                Resolve(k, IPv6(bits), ttl);
                v := Answer(Some(IPv6(bits)));
                return;
              }
            case Other =>
          }
          n := n + 1;
        }
        if e.addrType.Falls() {
          v := Restart(k, e.(addrType := e.addrType.Fallback(), state := New));
          return;
        }
      }
      Fail(k);
      v := Answer(None);
    }

    ghost predicate NoRequestFree()
      reads this, requests
    {
      forall k :: 0 <= k < requests.Length ==> requests[k].found.Some?
    }

    /** Every entry is in use; a completed one of age 0 is not evicted. */
    ghost predicate NoEntryFree()
      reads this, table
    {
      forall j :: 0 <= j < table.Length ==> !table[j].state.Unused? && (table[j].state.Done? ==> Age(table[j]) == 0)
    }

    ghost predicate CanJoin(hostname: seq<byte>, addrType: AddrType)
      reads this, table
    {
      exists j :: 0 <= j < table.Length && SameQuery(table[j], hostname, addrType)
    }

    /** The first loop of dns_enqueue: join a query for the same name that is in progress. */
    method TryJoin(hostname: seq<byte>, found: nat, addrType: AddrType) returns (joined: bool, ghost i: nat, ghost r: nat)
      requires Valid()
      modifies requests, this`accepted, this`born, this`wanted
      ensures Valid()
      ensures joined <==> old(CanJoin(hostname, addrType)) && !old(NoRequestFree())
      ensures if joined then accepted == old(accepted) + multiset{found} else unchanged(this) && unchanged(requests)
      ensures joined ==> i < table.Length && SameQuery(table[i], hostname, addrType) && table[i].state.Asking?
      ensures joined ==> r < requests.Length && old(requests[r]).found.None? && requests[..] == old(requests[..])[r := Request(Some(found), i)]
      ensures joined ==> wanted == old(wanted)[r := Wanted(hostname, addrType)] && born == old(born)[r := clock]
    {
      hide InUse, DistinctTxids, Pending, Called, Timely, Replies, Cleared, Checked, Meant, SameQuery, Joins;
      ghost var full := NoRequestFree();
      joined, i, r := false, table.Length, requests.Length;
      for k := 0 to table.Length
        invariant unchanged(this) && unchanged(requests)
        invariant forall j :: 0 <= j < k && SameQuery(table[j], hostname, addrType) ==> full
      {
        JoinsIff(table[k], hostname, addrType);
        if Joins(table[k], Shortened(hostname), addrType) {
          var q := FreeRequest();
          if q < requests.Length {
            SameIsMeant(table[..], k, found, Wanted(hostname, addrType));
            Join(k, q, found, Wanted(hostname, addrType));
            return true, k, q;
          }
        }
      }
    }

    /** dns_enqueue. `pcbAvailable` says whether dns_alloc_pcb finds a source port; i and r are the entry and the request
        that are used. */
    method Enqueue(hostname: seq<byte>, found: nat, addrType: AddrType, mdns: bool, pcbAvailable: bool)
      returns (err: Err, ghost i: nat, ghost r: nat)
      requires Valid()
      modifies table, requests, this`log, this`sent, this`txid, this`seqno, this`accepted, this`born, this`wanted
      ensures Valid() && clock == old(clock)
      ensures err.InProgress? || err.Mem?
      ensures accepted == if err.InProgress? then old(accepted) + multiset{found} else old(accepted)
      ensures old(log) <= log && forall k :: |old(log)| <= k < |log| ==> log[k].1 == None
      ensures err.Mem? ==> log == old(log) && sent == old(sent) && Pending(requests[..]) == Pending(old(requests[..]))
      ensures err.Mem? ==> !pcbAvailable || old(NoRequestFree()) || old(NoEntryFree())
      ensures err.Mem? ==> seqno == old(seqno)
      ensures err.Mem? && (i == table.Length || old(NoRequestFree())) ==> table[..] == old(table[..])
      ensures err.Mem? && i < table.Length && !old(NoRequestFree()) ==>
        table[..] == old(table[..])[i := GivenBack(old(table[..])[i], seqno, Shortened(hostname), addrType)]
      ensures old(NoRequestFree()) ==> err.Mem?
      ensures err.InProgress? ==> i < table.Length && table[..] == old(table[..])[i := table[i]]
      ensures err.InProgress? ==> r < requests.Length && old(requests[..])[r].found.None? && requests[..] == old(requests[..])[r := requests[r]]
      ensures err.InProgress? ==> requests[r] == Request(if table[i].state.Asking? then Some(found) else None, i)
      ensures err.InProgress? ==> wanted == old(wanted)[r := Wanted(hostname, addrType)] && born == old(born)[r := clock]
      ensures err.InProgress? && old(CanJoin(hostname, addrType)) ==>
        table[..] == old(table[..]) && SameQuery(table[i], hostname, addrType) && sent == old(sent) && log == old(log)
      ensures err.InProgress? ==> seqno == if old(CanJoin(hostname, addrType)) then old(seqno) else (old(seqno) + 1) % SEQNOS
      ensures err.InProgress? && !old(CanJoin(hostname, addrType)) ==>
        table[i] == Checked(NewEntry(old(table[i]), old(seqno), Shortened(hostname), addrType, mdns), servers[..], l, txid).0
      ensures err.InProgress? && !old(CanJoin(hostname, addrType)) ==> Asks(i, hostname, addrType, mdns, old(sent), old(seqno))
      ensures old(CanJoin(hostname, addrType)) && !old(NoRequestFree()) ==> err.InProgress?
    {
      hide *;
      var joined;
      joined, i, r := TryJoin(hostname, found, addrType);
      if joined {
        assert table[..] == old(table[..]);
        return InProgress, i, r;
      }
      assert requests[..] == old(requests[..]);
      err, i, r := Enter(hostname, found, addrType, mdns, pcbAvailable);
    }

    /** The rest of dns_enqueue: a new query, if there is an entry, a request and a source port for it. */
    method Enter(hostname: seq<byte>, found: nat, addrType: AddrType, mdns: bool, pcbAvailable: bool)
      returns (err: Err, ghost i: nat, ghost r: nat)
      requires Valid()
      modifies table, requests, this`log, this`sent, this`txid, this`seqno, this`accepted, this`born, this`wanted
      ensures Valid() && clock == old(clock)
      ensures err.InProgress? <==> pcbAvailable && !old(NoRequestFree()) && !old(NoEntryFree())
      ensures err.InProgress? || err.Mem?
      ensures old(log) <= log && forall k :: |old(log)| <= k < |log| ==> log[k].1 == None
      ensures err.Mem? ==> log == old(log) && sent == old(sent) && Pending(requests[..]) == Pending(old(requests[..]))
      ensures err.Mem? ==> seqno == old(seqno) && accepted == old(accepted)
      ensures err.Mem? && (i == table.Length || old(NoRequestFree())) ==> table[..] == old(table[..])
      ensures err.Mem? && i < table.Length && !old(NoRequestFree()) ==>
        table[..] == old(table[..])[i := GivenBack(old(table[..])[i], seqno, Shortened(hostname), addrType)]
      ensures err.InProgress? ==> i < table.Length && table[..] == old(table[..])[i := table[i]]
      ensures err.InProgress? ==> r < requests.Length && old(requests[..])[r].found.None? && requests[..] == old(requests[..])[r := requests[r]]
      ensures err.InProgress? ==> requests[r] == Request(if table[i].state.Asking? then Some(found) else None, i)
      ensures err.InProgress? ==> wanted == old(wanted)[r := Wanted(hostname, addrType)] && born == old(born)[r := clock]
      ensures err.InProgress? ==> seqno == (old(seqno) + 1) % SEQNOS && accepted == old(accepted) + multiset{found}
      ensures err.InProgress? ==>
        table[i] == Checked(NewEntry(old(table[i]), old(seqno), Shortened(hostname), addrType, mdns), servers[..], l, txid).0
      ensures err.InProgress? ==> Asks(i, hostname, addrType, mdns, old(sent), old(seqno))
    {
      hide InUse, DistinctTxids, Pending, Called, Timely, Replies, Cleared, Checked, Meant, Asks, NoRequestFree, NoEntryFree, Age;
      r := requests.Length;
      var k := FreeEntry();
      i := k;
      if k == table.Length {
        return Mem, i, r;
      }
      var q := FreeRequest();
      if q == requests.Length {
        return Mem, i, r;
      }
      r := q;
      if !pcbAvailable {
        Abandon(k, q, Shortened(hostname), addrType);
        return Mem, i, r;
      }
      Start(k, q, hostname, found, addrType, mdns);
      err := InProgress;
    }

    /** The new query in entry i has been sent, or could not be for want of a server. */
    ghost predicate Asks(i: nat, hostname: seq<byte>, addrType: AddrType, mdns: bool, before: seq<Query>, seqno: nat)
      reads this, table, servers
      requires i < table.Length
    {
      var e, name := table[i], hostname[..Min(|hostname|, 255)];
      if mdns || (0 < servers.Length && servers[0].Some?) then
        JustStarted(e) && e.name == name && e.addrType == addrType && e.mdns == mdns && e.seqno == seqno
        && 0 < |sent| && sent == before + [sent[|sent| - 1]] && sent[|sent| - 1].txid == e.txid && sent[|sent| - 1].name == name
        && (sent[|sent| - 1].v6 <==> addrType.V6? || addrType.V6V4?)
        && sent[|sent| - 1].to == if mdns then None else servers[0]
      else e.state.Unused? && sent == before
    }

    method FreeRequest() returns (r: nat)
      ensures r <= requests.Length
      ensures r < requests.Length <==> !NoRequestFree()
      ensures r < requests.Length ==> requests[r].found.None?
    {
      r := 0;
      while r < requests.Length
        invariant r <= requests.Length && forall k :: 0 <= k < r ==> requests[k].found.Some?
      {
        if requests[r].found.None? {
          return;
        }
        r := r + 1;
      }
    }

    /** An unused entry, or else the oldest completed one. */
    method FreeEntry() returns (i: nat)
      requires Shape()
      ensures i <= table.Length
      ensures i < table.Length ==> table[i].state.Unused? || table[i].state.Done?
      ensures i < table.Length && table[i].state.Done? ==>
        forall j :: 0 <= j < table.Length ==>
          !table[j].state.Unused? && (table[j].state.Done? ==> Age(table[j]) <= Age(table[i]))
      ensures i < table.Length && table[i].state.Done? ==>
        0 < Age(table[i]) && forall j :: 0 <= j < i && table[j].state.Done? ==> Age(table[j]) < Age(table[i])
      ensures i == table.Length <==> NoEntryFree()
    {
      i := 0;
      var lseq: nat, lseqi: nat := 0, table.Length;
      while i < table.Length
        invariant i <= table.Length && lseqi <= table.Length
        invariant forall j :: 0 <= j < i ==>
          !table[j].state.Unused? && (table[j].state.Done? ==> Age(table[j]) <= lseq)
        invariant if lseqi < table.Length then table[lseqi].state.Done? && Age(table[lseqi]) == lseq else lseq == 0
        invariant lseqi < table.Length ==> 0 < lseq && forall j :: 0 <= j < lseqi && table[j].state.Done? ==> Age(table[j]) < lseq
      {
        if table[i].state.Unused? {
          return;
        }
        if table[i].state.Done? {
          var age := Age(table[i]);
          if age > lseq {
            lseq, lseqi := age, i;
          }
        }
        i := i + 1;
      }
      i := lseqi;
    }

    /** How many queries ago an entry was started, as far as 8 bits tell. */
    function Age(e: Entry): nat
      reads this
    {
      (seqno - e.seqno) % SEQNOS
    }

    /** The age is the number of queries that were started since, up to 255. */
    lemma AgeCounts(e: Entry, n: nat)
      requires e.seqno < SEQNOS && n < SEQNOS && seqno == (e.seqno + n) % SEQNOS
      ensures Age(e) == n
    {
    }

    /** Request r waits for entry i. */
    method Register(r: nat, i: nat, found: nat, ghost w: Wanted)
      requires Shape() && r < requests.Length && requests[r].found.None?
      modifies requests, this`accepted, this`born, this`wanted
      ensures Shape() && (old(Accounts()) ==> Accounts())
      ensures accepted == old(accepted) + multiset{found} && born == old(born)[r := clock] && wanted == old(wanted)[r := w]
      ensures requests[..] == old(requests[..])[r := Request(Some(found), i)]
    {
      hide Pending, Called;
      PendingUpdate(requests[..], r, Request(Some(found), i));
      requests[r] := Request(Some(found), i);
      accepted := accepted + multiset{found};
      born, wanted := born[r := clock], wanted[r := w];
    }

    /** One more callback waits for the query in progress in entry i. */
    method Join(i: nat, r: nat, found: nat, ghost w: Wanted)
      requires Valid() && i < table.Length && table[i].state.Asking? && r < requests.Length && requests[r].found.None?
      requires Meant(table[..], Request(Some(found), i), w)
      modifies requests, this`accepted, this`born, this`wanted
      ensures Valid() && accepted == old(accepted) + multiset{found} && wanted == old(wanted)[r := w] && born == old(born)[r := clock]
      ensures requests[..] == old(requests[..])[r := Request(Some(found), i)]
    {
      hide InUse, DistinctTxids, Pending, Called, Meant;
      RunningBound(table[i], l);
      Register(r, i, found, w);
    }

    /** There is no source port for the query: entry i and request r are given back. */
    method Abandon(i: nat, r: nat, name: seq<byte>, addrType: AddrType)
      requires Valid() && i < table.Length && (table[i].state.Unused? || table[i].state.Done?)
      requires r < requests.Length && requests[r].found.None?
      modifies table, requests
      ensures Valid() && requests[..] == old(requests[..])[r := Request(None, i)]
      ensures Pending(requests[..]) == Pending(old(requests[..]))
      ensures table[..] == old(table[..])[i := GivenBack(old(table[i]), seqno, name, addrType)]
    {
      hide InUse, DistinctTxids, Pending, Called, Timely, Meant;
      ghost var t0, r0 := table[..], requests[..];
      table[i] := table[i].(state := New, seqno := seqno, addrType := addrType, name := name);
      table[i] := table[i].(state := Unused);
      requests[r] := Request(None, i);
      SameTxid(t0, table[..], i);
      StillTimely(l, t0, table[..], i, r0, born, clock);
      PendingIdle(r0, r, i);
      assert Timely(l, table[..], requests[r], born[r], clock, 0) by { IdleIsTimely(l, table[..], requests[r], born[r], clock); }
      StillMeant(l, t0, table[..], i, r0, born, clock, wanted);
      IdleIsMeant(table[..], requests[r], wanted[r]);
    }

    /** A new query in entry i for request r, started at once. */
    method Start(i: nat, r: nat, hostname: seq<byte>, found: nat, addrType: AddrType, mdns: bool)
      requires Valid() && i < table.Length && (table[i].state.Unused? || table[i].state.Done?)
      requires r < requests.Length && requests[r].found.None?
      modifies table, requests, this`log, this`sent, this`txid, this`seqno, this`accepted, this`born, this`wanted
      ensures Valid() && clock == old(clock) && accepted == old(accepted) + multiset{found}
      ensures old(log) <= log && forall k :: |old(log)| <= k < |log| ==> log[k].1 == None
      ensures table[..] == old(table[..])[i := table[i]]
      ensures table[i] == Checked(NewEntry(old(table[i]), old(seqno), Shortened(hostname), addrType, mdns), servers[..], l, txid).0
      ensures Asks(i, hostname, addrType, mdns, old(sent), old(seqno))
      ensures requests[..] == old(requests[..])[r := Request(if table[i].state.Asking? then Some(found) else None, i)]
      ensures wanted == old(wanted)[r := Wanted(hostname, addrType)] && born == old(born)[r := clock]
      ensures seqno == (old(seqno) + 1) % SEQNOS
    {
      hide InUse, DistinctTxids, Pending, Called, Timely, Replies, Cleared, Checked, Meant, QueryOf, Shortened;
      ghost var t0, r0 := table[..], requests[..];
      ghost var w := Wanted(hostname, addrType);
      table[i] := NewEntry(table[i], seqno, Shortened(hostname), addrType, mdns);
      SameTxid(t0, table[..], i);
      Register(r, i, found, w);
      seqno := (seqno + 1) % SEQNOS;
      ghost var r1 := requests[..];
      var v := CheckEntry(i);
      NewIsAsked(t0[i], old(seqno), hostname, addrType, mdns, servers[..], l, txid);
      Started(l, t0, table[..], i, r0, r, found, requests[..], old(born), clock, v, old(wanted), w, old(seqno), mdns, servers[..], txid);
      if v.Answer? { RepliesAddr(r1, i, None); }
      forall j | 0 <= j < table.Length ensures Settled(table[j], l) { assert table[..][j] == table[j]; }
    }

    /** A callback that has not been called as often as it was accepted waits in a request
        accepted less than the bound ago; no callback is called more often than it was accepted. */
    lemma AnsweredExactlyOnceInTime(found: nat)
      requires Valid()
      ensures Called(log)[found] <= accepted[found]
      ensures Called(log)[found] < accepted[found] <==> exists r :: 0 <= r < requests.Length && requests[r].found == Some(found)
      ensures forall r :: 0 <= r < requests.Length && requests[r].found.Some? ==> born[r] <= clock < born[r] + Bound(l)
    {
      hide InUse, DistinctTxids, Called, Pending;
      PendingWaits(requests[..], found);
      assert forall r :: 0 <= r < requests.Length ==> requests[..][r] == requests[r];
      assert forall i :: 0 <= i < table.Length && table[i].state.Asking? ==> 1 <= Ticks(table[i], l);
    }
  }

  lemma IdleIsTimely(l: Limits, t: seq<Entry>, q: Request, born: nat, clock: nat)
    requires q.found.None?
    ensures Timely(l, t, q, born, clock, 0)
  {
  }

  /** A request that does not wait counts for nothing. */
  lemma {:induction false} PendingIdle(rs: seq<Request>, r: nat, idx: nat)
    requires r < |rs| && rs[r].found.None?
    ensures Pending(rs[r := Request(None, idx)]) == Pending(rs)
  {
    var rs' := rs[r := Request(None, idx)];
    if r == |rs| - 1 {
      assert rs'[..|rs| - 1] == rs[..|rs| - 1];
    } else {
      PendingIdle(rs[..|rs| - 1], r, idx);
      assert rs'[..|rs| - 1] == rs[..|rs| - 1][r := Request(None, idx)];
    }
  }

  /** The callbacks pending are those some request waits with. */
  lemma {:induction false} PendingWaits(rs: seq<Request>, found: nat)
    ensures found in Pending(rs) <==> exists r :: 0 <= r < |rs| && rs[r].found == Some(found)
  {
    if rs != [] {
      var front := rs[..|rs| - 1];
      PendingWaits(front, found);
      assert forall r :: 0 <= r < |front| ==> front[r] == rs[r];
    }
  }

  /** Nothing waits for an entry that is not in progress, so it may be changed. */
  lemma StillTimely(l: Limits, t: seq<Entry>, t': seq<Entry>, i: nat, rs: seq<Request>, born: seq<nat>, clock: nat)
    requires i < |t| == |t'| && t' == t[i := t'[i]] && !t[i].state.Asking? && |born| == |rs|
    requires forall r :: 0 <= r < |rs| ==> Timely(l, t, rs[r], born[r], clock, 0)
    ensures forall r :: 0 <= r < |rs| ==> Timely(l, t', rs[r], born[r], clock, 0)
  {
  }

  lemma StillMeant(l: Limits, t: seq<Entry>, t': seq<Entry>, i: nat, rs: seq<Request>, born: seq<nat>, clock: nat, wanted: seq<Wanted>)
    requires i < |t| == |t'| && t' == t[i := t'[i]] && !t[i].state.Asking? && |born| == |rs| == |wanted|
    requires forall r :: 0 <= r < |rs| ==> Timely(l, t, rs[r], born[r], clock, 0) && Meant(t, rs[r], wanted[r])
    ensures forall r :: 0 <= r < |rs| ==> Meant(t', rs[r], wanted[r])
  {
    forall r | 0 <= r < |rs| ensures Meant(t', rs[r], wanted[r]) {
      assert rs[r].found.Some? ==> rs[r].tableIdx != i by { assert Timely(l, t, rs[r], born[r], clock, 0); }
      MeantStep(t, t', i, rs[r], rs[r], wanted[r]);
    }
  }

  lemma SameIsMeant(t: seq<Entry>, i: nat, found: nat, w: Wanted)
    requires i < |t| && SameQuery(t[i], w.name, w.addrType)
    ensures Meant(t, Request(Some(found), i), w)
  {
  }

  /** Of the requests that wait for entry i there is none but the new one, r. */
  lemma OnlyWaiting(l: Limits, t: seq<Entry>, i: nat, rs: seq<Request>, r: nat, found: nat, born: seq<nat>, clock: nat)
    requires i < |t| && !t[i].state.Asking? && |born| == |rs| && r < |rs|
    requires forall k :: 0 <= k < |rs| ==> Timely(l, t, rs[k], born[k], clock, 0)
    ensures Cleared(rs[r := Request(Some(found), i)], i) == rs[r := Request(None, i)]
  {
    var rs1 := rs[r := Request(Some(found), i)];
    ClearedSpec(rs1, i);
    hide Cleared;
    forall k | 0 <= k < |rs| && k != r ensures !WaitsFor(rs[k], i) { assert Timely(l, t, rs[k], born[k], clock, 0); }
  }

  /** A new query is sent to the first server, if there is one. */
  lemma NewIsAsked(e: Entry, seqno: nat, hostname: seq<byte>, addrType: AddrType, mdns: bool, servers: Servers, l: Limits, txid: nat)
    requires l.Valid() && |servers| == l.servers
    ensures var (e', v) := Checked(NewEntry(e, seqno, Shortened(hostname), addrType, mdns), servers, l, txid);
      && e'.name == hostname[..Min(|hostname|, 255)] && e'.addrType == addrType && e'.mdns == mdns && e'.seqno == seqno && e'.txid == txid
      && (if mdns || servers[0].Some? then v == Wait && JustStarted(e') else v == Answer(None) && e'.state.Unused?)
      && QueryOf(e', servers) == Query(txid, if mdns then None else servers[0], e'.name, addrType.V6? || addrType.V6V4?)
  {
  }

  lemma NewIsMeant(t: seq<Entry>, i: nat, q: Request, w: Wanted)
    requires i < |t| && q.tableIdx == i && t[i].name == w.name[..Min(|w.name|, 255)] && t[i].addrType == w.addrType
    ensures Meant(t, q, w)
  {
  }

  lemma StartMeant(l: Limits, t: seq<Entry>, t': seq<Entry>, i: nat, rs: seq<Request>, r: nat, rs': seq<Request>,
                   born: seq<nat>, clock: nat, wanted: seq<Wanted>, w: Wanted)
    requires i < |t| == |t'| && t' == t[i := t'[i]] && !t[i].state.Asking? && |born| == |rs| == |wanted| && r < |rs| == |rs'|
    requires forall k :: 0 <= k < |rs| ==> Timely(l, t, rs[k], born[k], clock, 0) && Meant(t, rs[k], wanted[k])
    requires rs' == rs[r := rs'[r]] && Meant(t', rs'[r], w)
    ensures forall k :: 0 <= k < |rs| ==> Meant(t', rs'[k], wanted[r := w][k])
  {
    StillMeant(l, t, t', i, rs, born, clock, wanted);
  }

  lemma IdleIsMeant(t: seq<Entry>, q: Request, w: Wanted)
    requires q.found.None?
    ensures Meant(t, q, w)
  {
  }

  /** After a query was started for the new request r. */
  lemma StartTimely(l: Limits, t: seq<Entry>, t': seq<Entry>, i: nat, rs: seq<Request>, r: nat, rs1: seq<Request>,
                    rs': seq<Request>, born: seq<nat>, clock: nat, v: Verdict)
    requires i < |t| == |t'| && t' == t[i := t'[i]] && !t[i].state.Asking? && |born| == |rs| && r < |rs|
    requires forall k :: 0 <= k < |rs| ==> Timely(l, t, rs[k], born[k], clock, 0)
    requires |rs1| == |rs| && rs1 == rs[r := Request(rs1[r].found, i)]
    requires rs' == if v.Answer? then Cleared(rs1, i) else rs1
    requires v.Wait? ==> t'[i].state.Asking? && t'[i].serverIdx < l.servers && Ticks(t'[i], l) <= Bound(l)
    ensures |rs'| == |rs| && forall k :: 0 <= k < |rs| ==> Timely(l, t', rs'[k], born[r := clock][k], clock, 0)
  {
    ClearedSpec(rs1, i);
    StillTimely(l, t, t', i, rs, born, clock);
  }

  /** A change of entry i keeps what its requests mean, if they are answered, or if the name stays and at most the family
      falls back. */
  lemma MeantStep(t: seq<Entry>, t': seq<Entry>, i: nat, q: Request, q': Request, w: Wanted)
    requires i < |t| == |t'| && t' == t[i := t'[i]] && Meant(t, q, w)
    requires q'.found.Some? ==> q' == q
    requires q'.found.Some? && q.tableIdx == i ==> t'[i].name == t[i].name
    requires q'.found.Some? && q.tableIdx == i ==>
      t'[i].addrType == t[i].addrType || (t[i].addrType.Falls() && t'[i].addrType == t[i].addrType.Fallback())
    ensures Meant(t', q', w)
  {
  }

  /** A new query that has been checked once keeps everything as it should be. */
  lemma Started(l: Limits, t: seq<Entry>, t': seq<Entry>, i: nat, rs: seq<Request>, r: nat, found: nat, rs': seq<Request>, born: seq<nat>,
                clock: nat, v: Verdict, wanted: seq<Wanted>, w: Wanted, seqno: nat, mdns: bool, servers: Servers, txid: nat)
    requires l.Valid() && |servers| == l.servers
    requires i < |t| == |t'| && t' == t[i := t'[i]] && !t[i].state.Asking? && |born| == |rs| == |wanted| && r < |rs|
    requires forall k :: 0 <= k < |rs| ==> Timely(l, t, rs[k], born[k], clock, 0) && Meant(t, rs[k], wanted[k])
    requires (t'[i], v) == Checked(NewEntry(t[i], seqno, Shortened(w.name), w.addrType, mdns), servers, l, txid)
    requires var rs1 := rs[r := Request(Some(found), i)]; rs' == if v.Answer? then Cleared(rs1, i) else rs1
    ensures Settled(t'[i], l) && rs' == rs[r := Request(if t'[i].state.Asking? then Some(found) else None, i)]
    ensures forall k :: 0 <= k < |rs| ==> Timely(l, t', rs'[k], born[r := clock][k], clock, 0) && Meant(t', rs'[k], wanted[r := w][k])
  {
    hide Cleared, Timely, Meant, Shortened, Settled, QueryOf, Checked;
    var e, rs1 := NewEntry(t[i], seqno, Shortened(w.name), w.addrType, mdns), rs[r := Request(Some(found), i)];
    StartKeepsTicks(e, servers, l, txid);
    if t'[i].state.Asking? { SettledRuns(t'[i], l); }
    OnlyWaiting(l, t, i, rs, r, found, born, clock);
    NewIsAsked(t[i], seqno, w.name, w.addrType, mdns, servers, l, txid);
    StartTimely(l, t, t', i, rs, r, rs1, rs', born, clock, v);
    NewIsMeant(t', i, rs'[r], w);
    StartMeant(l, t, t', i, rs, r, rs', born, clock, wanted, w);
  }

  lemma SettledRuns(e: Entry, l: Limits)
    requires Settled(e, l) && e.state.Asking?
    ensures e.serverIdx < l.servers
  {
  }

  lemma RestartGains(e: Entry, e': Entry, servers: Servers, l: Limits)
    requires l.Valid() && |servers| == l.servers && e.state.Asking? && Settled(e, l) && RestartsFrom(e, e', servers, l)
    ensures e'.state.New? || Settled(e', l)
  {
  }

  /** Another attempt costs the waiting requests nothing. */
  lemma RestartChecked(e: Entry, e': Entry, servers: Servers, l: Limits, txid: nat)
    requires l.Valid() && |servers| == l.servers && e.state.Asking? && Settled(e, l) && RestartsFrom(e, e', servers, l)
    ensures var (e'', v) := Checked(e', servers, l, txid);
      && Settled(e'', l)
      && (v.Answer? ==> v.addr.None?)
      && (v.Wait? ==> e''.state.Asking? && e''.serverIdx < l.servers && Ticks(e'', l) <= Ticks(e, l))
      && (if v.Wait? then e'' != e else e''.state.Unused?)
      && e''.name == e.name && (e''.addrType == e.addrType || (e.addrType.Falls() && e''.addrType == e.addrType.Fallback()))
  {
    hide ServersTicks;
    if e'.state.New? {
      FallbackMovesOn(e, l);
      StartKeepsTicks(e', servers, l, txid);
    } else {
      ErrorMovesOn(e, servers, l, txid);
    }
  }

  /** A request after the first n entries have been checked: answered if its query has come to an end. */
  ghost function AfterChecks(q: Request, t: seq<Entry>, servers: Servers, l: Limits, n: nat): Request
    requires n <= |t|
  {
    if q.found.Some? && q.tableIdx < n && Checked(t[q.tableIdx], servers, l, 0).1.Answer? then q.(found := None) else q
  }

  /** The queries that a tick sends again for the first n entries, in the order of the table */
  ghost function Due(t: seq<Entry>, servers: Servers, l: Limits, n: nat): seq<Query>
    requires n <= |t|
  {
    if n == 0 then []
    else
      var e, c := t[n - 1], Checked(t[n - 1], servers, l, 0);
      Due(t, servers, l, n - 1) + if e.state.Asking? && e.tmr == 1 && !c.1.Answer? then [QueryOf(c.0, servers)] else []
  }

  lemma AfterTick(q: Request, t: seq<Entry>, servers: Servers, l: Limits, i: nat)
    requires q.found.Some? && q.tableIdx == i < |t|
    ensures AfterChecks(q, t, servers, l, |t|) == if Checked(t[i], servers, l, 0).1.Answer? then q.(found := None) else q
  {
  }

  /** A tick after the first n entries of t: what waits is as young as it should be, means what it did, and is answered if
      its query has come to an end. */
  ghost predicate Halfway(l: Limits, t: seq<Entry>, now: seq<Entry>, servers: Servers, n: nat, rs: seq<Request>, rsNow: seq<Request>,
                          born: seq<nat>, clock: nat, wanted: seq<Wanted>)
    requires n <= |t| && |rs| == |rsNow| == |born| == |wanted|
  {
    forall r :: 0 <= r < |rs| ==>
      && Timely(l, now, rsNow[r], born[r], clock, if rsNow[r].tableIdx < n then 0 else 1)
      && Meant(now, rsNow[r], wanted[r]) && rsNow[r] == AfterChecks(rs[r], t, servers, l, n)
  }

  lemma NoChecks(l: Limits, t: seq<Entry>, servers: Servers, rs: seq<Request>, born: seq<nat>, clock: nat, wanted: seq<Wanted>)
    requires |rs| == |born| == |wanted|
    requires forall r :: 0 <= r < |rs| ==> Timely(l, t, rs[r], born[r], clock, 0) && Meant(t, rs[r], wanted[r])
    ensures Halfway(l, t, t, servers, 0, rs, rs, born, clock + 1, wanted)
    ensures Due(t, servers, l, 0) == []
  {
    hide Meant, Checked;
    LaterTimely(l, t, rs, born, clock);
  }

  lemma HalfwayStep(l: Limits, t: seq<Entry>, t0: seq<Entry>, t1: seq<Entry>, servers: Servers, i: nat, rs: seq<Request>,
                    r0: seq<Request>, r1: seq<Request>, v: Verdict, born: seq<nat>, clock: nat, wanted: seq<Wanted>)
    requires l.Valid() && |servers| == l.servers && i < |t| == |t0| == |t1| && |rs| == |r0| == |r1| == |born| == |wanted|
    requires t1 == t0[i := t1[i]] && t0[i] == t[i] && Settled(t[i], l) && (t1[i], v) == Checked(t[i], servers, l, 0)
    requires r1 == if v.Answer? then Cleared(r0, i) else r0
    requires Halfway(l, t, t0, servers, i, rs, r0, born, clock, wanted)
    ensures Halfway(l, t, t1, servers, i + 1, rs, r1, born, clock, wanted)
  {
    ClearedSpec(r0, i);
    CheckedTick(t[i], servers, l, 0);
    hide Cleared, Timely, Meant, AfterChecks, Checked;
    forall r | 0 <= r < |rs|
      ensures Timely(l, t1, r1[r], born[r], clock, if r1[r].tableIdx < i + 1 then 0 else 1)
      ensures Meant(t1, r1[r], wanted[r]) && r1[r] == AfterChecks(rs[r], t, servers, l, i + 1)
    {
      TimelyStep(l, t0, t1, i, r0[r], r1[r], v, born[r], clock, if r0[r].tableIdx < i then 0 else 1, if r0[r].tableIdx < i + 1 then 0 else 1);
      MeantStep(t0, t1, i, r0[r], r1[r], wanted[r]);
      OneMoreCheck(rs[r], t, servers, l, i);
    }
  }

  lemma AllTheWay(l: Limits, t: seq<Entry>, now: seq<Entry>, servers: Servers, rs: seq<Request>, rsNow: seq<Request>,
                  born: seq<nat>, clock: nat, wanted: seq<Wanted>)
    requires |now| == |t| && |rs| == |rsNow| == |born| == |wanted| && Halfway(l, t, now, servers, |t|, rs, rsNow, born, clock, wanted)
    ensures forall r :: 0 <= r < |rs| ==> Timely(l, now, rsNow[r], born[r], clock, 0) && Meant(now, rsNow[r], wanted[r])
    ensures forall r :: 0 <= r < |rs| ==> rsNow[r] == AfterChecks(rs[r], t, servers, l, |t|)
  {
    hide Meant, AfterChecks;
  }

  lemma OneMoreCheck(q: Request, t: seq<Entry>, servers: Servers, l: Limits, i: nat)
    requires i < |t|
    ensures var q' := AfterChecks(q, t, servers, l, i);
      AfterChecks(q, t, servers, l, i + 1)
      == if Checked(t[i], servers, l, 0).1.Answer? && WaitsFor(q', i) then q'.(found := None) else q'
  {
    hide Checked;
  }

  lemma OneMoreDue(t: seq<Entry>, servers: Servers, l: Limits, i: nat, before: seq<Query>, now: seq<Query>)
    requires i < |t| && now == before + Due(t, servers, l, i)
    ensures var e, c := t[i], Checked(t[i], servers, l, 0);
      before + Due(t, servers, l, i + 1)
      == if e.state.Asking? && e.tmr == 1 && !c.1.Answer? then now + [QueryOf(c.0, servers)] else now
  {
    hide Checked, QueryOf;
  }

  lemma LaterTimely(l: Limits, t: seq<Entry>, rs: seq<Request>, born: seq<nat>, clock: nat)
    requires |born| == |rs| && forall r :: 0 <= r < |rs| ==> Timely(l, t, rs[r], born[r], clock, 0)
    ensures forall r :: 0 <= r < |rs| ==> Timely(l, t, rs[r], born[r], clock + 1, 1)
  {
  }

  lemma {:induction false} RepliesAddr(rs: seq<Request>, idx: nat, addr: Option<Address>)
    ensures forall k :: 0 <= k < |Replies(rs, idx, addr)| ==> Replies(rs, idx, addr)[k].1 == addr
  {
    if rs != [] { RepliesAddr(rs[..|rs| - 1], idx, addr); }
  }

  /** Everyone who waits hears of it. */
  lemma {:induction false} RepliesHeard(rs: seq<Request>, idx: nat, addr: Option<Address>)
    ensures forall r :: 0 <= r < |rs| && WaitsFor(rs[r], idx) ==> (rs[r].found.value, addr) in Replies(rs, idx, addr)
  {
    if rs != [] {
      var front := rs[..|rs| - 1];
      RepliesHeard(front, idx, addr);
      assert forall r :: 0 <= r < |front| ==> front[r] == rs[r];
    }
  }

  /** How many requests wait for the entry. */
  function Waiters(rs: seq<Request>, idx: nat): nat {
    if rs == [] then 0 else Waiters(rs[..|rs| - 1], idx) + if WaitsFor(rs[|rs| - 1], idx) then 1 else 0
  }

  /** The callbacks are called in the order of the table: before a request's own come those of the requests before it. */
  lemma {:induction false} RepliesInOrder(rs: seq<Request>, idx: nat, addr: Option<Address>, r: nat)
    requires r < |rs| && WaitsFor(rs[r], idx)
    ensures |Replies(rs, idx, addr)| == Waiters(rs, idx) && Waiters(rs[..r], idx) < Waiters(rs, idx)
    ensures Replies(rs, idx, addr)[Waiters(rs[..r], idx)] == (rs[r].found.value, addr)
  {
    var front := rs[..|rs| - 1];
    RepliesCounted(front, idx, addr);
    if r < |rs| - 1 {
      RepliesInOrder(front, idx, addr, r);
      assert front[..r] == rs[..r];
    }
  }

  lemma {:induction false} RepliesCounted(rs: seq<Request>, idx: nat, addr: Option<Address>)
    ensures |Replies(rs, idx, addr)| == Waiters(rs, idx)
  {
    if rs != [] { RepliesCounted(rs[..|rs| - 1], idx, addr); }
  }

  /** Who hears of it has waited. */
  lemma {:induction false} RepliesTo(rs: seq<Request>, idx: nat, addr: Option<Address>, k: nat) returns (r: nat)
    requires k < |Replies(rs, idx, addr)|
    ensures r < |rs| && rs[r] == Request(Some(Replies(rs, idx, addr)[k].0), idx)
  {
    var front := rs[..|rs| - 1];
    if k < |Replies(front, idx, addr)| { r := RepliesTo(front, idx, addr, k); } else { r := |rs| - 1; }
  }

  lemma MeantServes(t: seq<Entry>, q: Request, i: nat, w: Wanted, addr: Option<Address>)
    requires i < |t| && q.found.Some? && q.tableIdx == i && Meant(t, q, w)
    requires addr.Some? ==> (addr.value.IPv6? <==> t[i].addrType.V6? || t[i].addrType.V6V4?)
    ensures Serves(w, t[i].name, addr)
  {
  }

  lemma RepliesServe(t: seq<Entry>, rs: seq<Request>, i: nat, addr: Option<Address>, wanted: seq<Wanted>, before: seq<Reply>, log: seq<Reply>)
    requires i < |t| && |rs| == |wanted| && forall r :: 0 <= r < |rs| ==> Meant(t, rs[r], wanted[r])
    requires addr.Some? ==> (addr.value.IPv6? <==> t[i].addrType.V6? || t[i].addrType.V6V4?)
    requires log == before + Replies(rs, i, addr)
    ensures before <= log
    ensures forall r :: 0 <= r < |rs| && WaitsFor(rs[r], i) ==> (rs[r].found.value, addr) in log[|before|..]
    ensures forall k :: |before| <= k < |log| ==> log[k].1 == addr
    ensures forall k :: |before| <= k < |log| ==> AskedFor(rs, wanted, i, t[i].name, log[k])
  {
    RepliesHeard(rs, i, addr);
    RepliesAddr(rs, i, addr);
    hide Replies, WaitsFor, Serves, Meant;
    assert log[|before|..] == Replies(rs, i, addr);
    forall k | |before| <= k < |log|
      ensures log[k].1 == addr
      ensures AskedFor(rs, wanted, i, t[i].name, log[k])
    {
      assert log[k] == log[|before|..][k - |before|];
      var r := RepliesTo(rs, i, addr, k - |before|);
      MeantServes(t, rs[r], i, wanted[r], addr);
    }
  }

  /** A check in a tick: a query in progress ends or gets closer to its end. */
  lemma CheckedTick(e: Entry, servers: Servers, l: Limits, txid: nat)
    requires l.Valid() && |servers| == l.servers && Settled(e, l)
    ensures Checked(e, servers, l, txid) == Checked(e, servers, l, 0)
    ensures var (e', v) := Checked(e, servers, l, txid);
      && Settled(e', l)
      && (v.Answer? ==> v.addr.None?) && e'.name == e.name && e'.addrType == e.addrType && !e.state.New?
      && (e.state.Asking? && v.Wait? ==>
            e'.state.Asking? && e.serverIdx < l.servers && e'.serverIdx < l.servers && Ticks(e', l) + 1 <= Ticks(e, l))
  {
    if e.state.Asking? { TickDecreases(e, servers, l, txid); }
  }

  /** What one entry's check does to the requests, when the entry gained nothing on the measure. */
  lemma TimelyStep(l: Limits, t: seq<Entry>, t': seq<Entry>, i: nat, q: Request, q': Request, v: Verdict,
                   born: nat, clock: nat, slack: nat, slack': nat)
    requires i < |t| == |t'| && t' == t[i := t'[i]] && Timely(l, t, q, born, clock, slack)
    requires q' == if v.Answer? && WaitsFor(q, i) then q.(found := None) else q
    requires if q.tableIdx != i then slack <= slack' else
      v.Wait? && t[i].state.Asking? && t[i].serverIdx < l.servers ==>
        t'[i].state.Asking? && t'[i].serverIdx < l.servers && Ticks(t'[i], l) + slack <= Ticks(t[i], l) + slack'
    ensures Timely(l, t', q', born, clock, slack')
  {
  }

  lemma ClearedSpec(rs: seq<Request>, idx: nat)
    ensures |Cleared(rs, idx)| == |rs|
    ensures forall i :: 0 <= i < |rs| ==>
      Cleared(rs, idx)[i] == if WaitsFor(rs[i], idx) then rs[i].(found := None) else rs[i]
    ensures forall addr :: Replies(rs[..0], idx, addr) == []
  {
  }

  lemma RepliesNext(rs: seq<Request>, idx: nat, addr: Option<Address>, i: nat)
    requires i < |rs|
    ensures Replies(rs[..i + 1], idx, addr)
         == Replies(rs[..i], idx, addr) + if WaitsFor(rs[i], idx) then [(rs[i].found.value, addr)] else []
  {
    assert rs[..i + 1][..i] == rs[..i];
  }

  lemma FreshTxid(t: seq<Entry>, t': seq<Entry>, i: nat)
    requires i < |t| == |t'| && DistinctTxids(t) && !t[i].state.Asking? && t' == t[i := t'[i]]
    requires t'[i].txid !in InUse(t)
    ensures DistinctTxids(t')
  {
    hide InUse;
    forall j | 0 <= j < |t| && j != i && t'[j].state.Asking? ensures t'[j].txid != t'[i].txid {
      AskingInUse(t, j);
    }
  }

  lemma NotAsking(t: seq<Entry>, txid: nat)
    requires txid !in InUse(t)
    ensures forall j :: 0 <= j < |t| && t[j].state.Asking? ==> t[j].txid != txid
  {
    hide InUse;
    forall j | 0 <= j < |t| && t[j].state.Asking? ensures t[j].txid != txid { AskingInUse(t, j); }
  }

  lemma AskingInUse(t: seq<Entry>, j: nat)
    requires j < |t| && t[j].state.Asking?
    ensures t[j].txid in InUse(t)
  {
  }

  lemma SameTxid(t: seq<Entry>, t': seq<Entry>, i: nat)
    requires i < |t| == |t'| && DistinctTxids(t) && t' == t[i := t'[i]]
    requires t'[i].state.Asking? ==> t[i].state.Asking? && t'[i].txid == t[i].txid
    ensures DistinctTxids(t')
  {
  }

  /** The last `tried` identifiers, x the latest of them, are in use by other queries. */
  ghost predicate TriedInVain(t: seq<Entry>, start: nat, tried: nat, x: nat) {
    && tried <= |t| && x == (start + tried) % TXIDS
    && Drawn(start, tried) <= InUse(t) && |Drawn(start, tried)| == tried
  }

  lemma NothingTried(t: seq<Entry>, start: nat)
    requires start < TXIDS
    ensures TriedInVain(t, start, 0, start)
  {
    hide InUse;
  }

  lemma OneMoreTry(t: seq<Entry>, start: nat, tried: nat, x: nat)
    requires |t| < 0x100 && TriedInVain(t, start, tried, x) && (x + 1) % TXIDS in InUse(t)
    ensures tried < |t| && TriedInVain(t, start, tried + 1, (x + 1) % TXIDS)
  {
    hide InUse, Drawn;
    NextDrawn(start, tried, x);
    var drawn := Drawn(start, tried);
    assert |drawn + {(x + 1) % TXIDS}| == tried + 1;
    InUseSize(t);
    SubsetSize(Drawn(start, tried + 1), InUse(t));
  }

  lemma NextDrawn(start: nat, n: nat, x: nat)
    requires x == (start + n) % TXIDS && n + 1 < TXIDS
    ensures (x + 1) % TXIDS == (start + n + 1) % TXIDS
    ensures Drawn(start, n + 1) == Drawn(start, n) + {(x + 1) % TXIDS}
    ensures (x + 1) % TXIDS !in Drawn(start, n)
  {
    NextId(start + n);
    DrawnNext(start, n);
    hide Drawn;
    DrawnAreDistinct(start, n, n + 1);
  }

  lemma NextId(a: nat)
    ensures (a % TXIDS + 1) % TXIDS == (a + 1) % TXIDS
  {
  }

  lemma DrawnNext(start: nat, n: nat)
    ensures Drawn(start, n + 1) == Drawn(start, n) + {(start + n + 1) % TXIDS}
  {
  }

  lemma InUseSize(t: seq<Entry>)
    ensures |InUse(t)| <= |t|
  {
  }

  lemma {:induction false} SubsetSize(a: set<nat>, b: set<nat>)
    requires a <= b
    ensures |a| <= |b|
    decreases a
  {
    if a != {} {
      var x :| x in a;
      SubsetSize(a - {x}, b - {x});
    }
  }

  lemma {:induction false} NothingPending(rs: seq<Request>)
    requires forall i :: 0 <= i < |rs| ==> rs[i].found.None?
    ensures Pending(rs) == multiset{}
  {
    if rs != [] { NothingPending(rs[..|rs| - 1]); }
  }
}
