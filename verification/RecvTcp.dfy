/** Receiving over a TCP socket: the stream arrives in packets and is handed out in pieces of any size. */
module RecvTcp {
  import opened PbufChain
  import opened Prelude

  /** A message in the receive mailbox: a packet, the end of the stream, or a connection error. */
  datatype Msg = Data(bytes: seq<byte>) | Fin | Failure(err: Err)

  /** What happens when the mailbox is looked at: whether err_tcp was called before, whether a message is
      there, and whether shutting down the receive side after a FIN frees the mailbox. */
  datatype Env = Env(ready: bool, reset: Option<Err>, shut: bool)

  const SSIZE_MAX := 0x7FFFFFFF

  /** The TCP layer delivers packets that are not empty, and none after the FIN. */
  ghost predicate Orderly(incoming: nat -> Msg) {
    && (forall i :: incoming(i).Data? ==> 0 < |incoming(i).bytes| < M16)
    && (forall i, j :: i < j && incoming(i).Fin? ==> !incoming(j).Data?)
    && (forall i :: incoming(i).Failure? ==> incoming(i).err.Rst? || incoming(i).err.Abrt?)
  }

  /** The bytes of the first n messages. */
  ghost function Stream(incoming: nat -> Msg, n: nat): seq<byte> {
    if n == 0 then []
    else Stream(incoming, n - 1) + if incoming(n - 1).Data? then incoming(n - 1).bytes else []
  }

  ghost predicate FinAmong(incoming: nat -> Msg, n: nat) {
    exists i :: 0 <= i < n && incoming(i).Fin?
  }

  lemma {:induction false} StreamGrows(incoming: nat -> Msg, m: nat, n: nat)
    requires m <= n
    ensures Stream(incoming, m) <= Stream(incoming, n)
  {
    if m < n { StreamGrows(incoming, m, n - 1); }
  }

  /** After the FIN the stream is complete. */
  lemma {:induction false} CompleteAfterFin(incoming: nat -> Msg, m: nat, n: nat)
    requires Orderly(incoming) && FinAmong(incoming, m) && m <= n
    ensures Stream(incoming, n) == Stream(incoming, m)
  {
    if m < n {
      CompleteAfterFin(incoming, m, n - 1);
      var i :| 0 <= i < m && incoming(i).Fin?;
      assert !incoming(n - 1).Data?;
    }
  }

  class Sock {
    /** All messages the TCP layer ever posts, in order, and how many of them were fetched. */
    const incoming: nat -> Msg
    var taken: nat
    /** the rest of a packet */
    var lastdata: Option<seq<byte>>
    const nonblocking: bool
    var mboxValid: bool
    var mboxClosed: bool
    var finRxPending: bool
    var pendingErr: Err
    var pcbGone: bool
    /** The calls of tcp_recved. */
    var recved: seq<nat>
    /** All that calls without MSG_PEEK have returned. */
    ghost var returned: seq<byte>

    function Last(): seq<byte>
      reads this
    {
      if lastdata.Some? then lastdata.value else []
    }

    /** What was returned, and what is left of the last packet, are the bytes fetched. */
    ghost predicate Valid()
      reads this
    {
      && Orderly(incoming)
      && returned + Last() == Stream(incoming, taken)
      && (lastdata.Some? ==> 0 < |lastdata.value| < M16)
      && (finRxPending ==> FinAmong(incoming, taken) && lastdata.None?) && !pendingErr.Clsd?
    }

    /** The bytes reported to the TCP layer are the bytes returned, until the connection is reset. */
    ghost predicate Reported()
      reads this
    {
      if pcbGone then Sum(recved) <= |returned| else Sum(recved) == |returned|
    }

    constructor (incoming: nat -> Msg, nonblocking: bool)
      requires Orderly(incoming)
      ensures Valid() && Reported() && returned == [] && recved == [] && this.incoming == incoming
      ensures taken == 0 && lastdata.None? && mboxValid && !mboxClosed && !finRxPending && pendingErr.Ok? && !pcbGone
    {
      this.incoming, this.nonblocking := incoming, nonblocking;
      taken, lastdata, mboxValid, mboxClosed, finRxPending := 0, None, true, false, false;
      pendingErr, pcbGone, recved, returned := Ok, false, [], [];
    }

    /** netconn_err */
    method TakeErr() returns (err: Err)
      modifies this`pendingErr
      ensures err == old(pendingErr) && pendingErr.Ok?
    {
      err := pendingErr;
      pendingErr := Ok;
    }

    /** err_tcp, as far as the receiver is concerned */
    method ErrTcp(err: Err)
      requires err.Rst? || err.Abrt?
      modifies this`pendingErr, this`mboxClosed, this`pcbGone
      ensures pendingErr == err && mboxClosed && pcbGone
    {
      pendingErr, mboxClosed, pcbGone := err, true, true;
    }

    /** A message is there, or is waited for. */
    predicate Arrives(dontblock: bool, env: Env)
      reads this
    {
      mboxValid && (env.ready || (env.reset.None? && !nonblocking && !dontblock && !mboxClosed && pendingErr.Ok?))
    }

    /** The next call sees a packet. */
    predicate DataArrives(dontblock: bool, env: Env)
      reads this
    {
      lastdata.Some? || (!finRxPending && Arrives(dontblock, env) && incoming(taken).Data?)
    }

    /** The next call sees the end of the stream, and not a reset instead. */
    predicate FinArrives(dontblock: bool, env: Env)
      reads this
    {
      && lastdata.None? && mboxValid && !pcbGone && env.reset.None?
      && (finRxPending || (Arrives(dontblock, env) && incoming(taken).Fin?))
    }

    /** What is reported when no message is there: a pending error first, and a closed mailbox before an empty one. */
    function NothingThere(env: Env): Err
      reads this
    {
      if env.reset.Some? then env.reset.value
      else if !pendingErr.Ok? then pendingErr
      else if mboxClosed then Conn else WouldBlock
    }

    /** netconn_recv_data; the FIN gives Ok without a packet. */
    method RecvData(dontblock: bool, env: Env) returns (err: Err, buf: Option<seq<byte>>)
      requires Orderly(incoming) && !pendingErr.Clsd?
      modifies this`taken, this`pendingErr
      ensures !pendingErr.Clsd? && !err.Clsd? && old(taken) <= taken <= old(taken) + 1
      ensures taken == old(taken) ==> buf.None? && pendingErr.Ok?
      ensures taken == old(taken) ==> err == if !old(pendingErr).Ok? then old(pendingErr) else if mboxValid && !mboxClosed then WouldBlock else Conn
      ensures taken != old(taken) ==> pendingErr == old(pendingErr)
      ensures taken == old(taken) + 1 <==>
        mboxValid && (env.ready || old(!nonblocking && !dontblock && !mboxClosed && pendingErr.Ok?))
      ensures taken != old(taken) ==> (buf.Some? <==> incoming(old(taken)).Data?) && (err.Ok? <==> !incoming(old(taken)).Failure?)
      ensures buf.Some? ==> buf.value == incoming(old(taken)).bytes
      ensures taken != old(taken) && incoming(old(taken)).Failure? ==> err == incoming(old(taken)).err
    {
      buf := None;
      if !mboxValid {
        err := TakeErr();
        if err.Ok? {
          err := Conn;
        }
        return;
      }
      if nonblocking || dontblock || mboxClosed || !pendingErr.Ok? {
        if !env.ready {
          err := TakeErr();
          if err.Ok? {
            err := if mboxClosed then Conn else WouldBlock;
          }
          return;
        }
      }
      var msg := incoming(taken);
      taken := taken + 1;
      match msg {
        case Data(bytes) => err, buf := Ok, Some(bytes);
        case Fin => err := Ok;
        case Failure(e) => err := e;
      }
    }

    /** netconn_recv_data_tcp with NETCONN_NOAUTORCVD: a packet, or the reason why there is none. With
        `nofin` a FIN is put off until the next call. */
    method RecvDataTcp(dontblock: bool, nofin: bool, env: Env) returns (err: Err, buf: Option<seq<byte>>)
      requires Valid() && lastdata.None? && (env.reset.Some? ==> env.reset.value.Rst? || env.reset.value.Abrt?)
      modifies this`taken, this`pendingErr, this`finRxPending, this`mboxValid, this`mboxClosed, this`pcbGone
      ensures (err.Ok? <==> buf.Some?) && (old(pcbGone) ==> pcbGone)
      ensures Orderly(incoming) && !pendingErr.Clsd? && (finRxPending ==> FinAmong(incoming, taken))
      ensures Stream(incoming, taken) == returned + if buf.Some? then buf.value else []
      ensures buf.Some? ==> 0 < |buf.value| < M16
      ensures err.Clsd? ==> FinAmong(incoming, taken) && (!nofin || old(finRxPending))
      ensures buf.Some? ==> !finRxPending
      ensures env.reset.Some? ==> pcbGone && mboxClosed
      ensures old(mboxValid) && (old(finRxPending) || !nofin) ==> !finRxPending
      ensures old(mboxValid) && !old(finRxPending) && nofin && err.WouldBlock? && taken != old(taken) ==> finRxPending
      ensures mboxValid == (old(mboxValid) && !(err.Clsd? && env.shut))
      ensures old(DataArrives(dontblock, env)) ==> err.Ok?
      ensures old(FinArrives(dontblock, env)) && !nofin ==> err.Clsd?
      ensures dontblock && err.Ok? ==> env.ready
      ensures !old(mboxValid) ==> err.Conn? && taken == old(taken)
      ensures old(mboxValid && finRxPending) ==> taken == old(taken)
      ensures old(mboxValid && finRxPending) ==>
        err == if env.reset.Some? then env.reset.value else if !old(pcbGone) then Clsd else if !old(pendingErr).Ok? then old(pendingErr) else Rst
      ensures old(taken) <= taken
      ensures old(mboxValid && !finRxPending) && taken == old(taken) ==> err == old(NothingThere(env))
      ensures old(mboxValid && !finRxPending) && env.ready && !err.Ok? ==> taken == old(taken) + 1 && !incoming(old(taken)).Data?
    {
      buf := None;
      if env.reset.Some? {
        ErrTcp(env.reset.value);
      }
      if !mboxValid {
        return Conn, None;
      }
      if finRxPending {
        finRxPending := false;
        err := HandleFin(env.shut);
        return;
      }
      var before := taken;
      err, buf := RecvData(dontblock, env);
      if !err.Ok? {
        return;
      }
      if buf.None? {
        assert incoming(before).Fin?;
        if nofin {
          // the caller cannot handle it right now
          finRxPending := true;
          err := WouldBlock;
        } else {
          err := HandleFin(env.shut);
        }
      }
    }

    /** The end of netconn_recv_data_tcp after a FIN */
    method HandleFin(shut: bool) returns (err: Err)
      requires !pendingErr.Clsd?
      modifies this`pendingErr, this`mboxValid
      ensures !err.Ok? && !pendingErr.Clsd?
      ensures err == if !pcbGone then Clsd else if !old(pendingErr).Ok? then old(pendingErr) else Rst
      ensures mboxValid == (old(mboxValid) && (pcbGone || !shut))
    {
      if pcbGone {
        err := TakeErr();
        if err.Ok? {
          err := Rst;
        }
        return;
      }
      if shut {
        mboxValid := false;
      }
      err := Clsd;
    }

    /** lwip_netconn_do_recv: report len bytes as received, in steps of 16 bits. */
    method DoRecv(len: nat)
      requires 0 < len
      modifies this`recved
      ensures old(recved) <= recved && (forall k :: |old(recved)| <= k < |recved| ==> 0 < recved[k] <= 0xFFFF)
      ensures Sum(recved) == Sum(old(recved)) + if pcbGone then 0 else len
    {
      if !pcbGone {
        var remaining := len;
        while remaining != 0
          invariant 0 <= remaining <= len && Sum(recved) == Sum(old(recved)) + len - remaining
          invariant old(recved) <= recved && forall k :: |old(recved)| <= k < |recved| ==> 0 < recved[k] <= 0xFFFF
        {
          var step := if remaining > 0xFFFF then 0xFFFF else remaining;
          recved := recved + [step];
          remaining := remaining - step;
        }
      }
    }

    /** The packet to read from: what is left of the last one, or the next one. */
    method Fetch(dontblock: bool, nofin: bool, env: Env) returns (err: Err)
      requires Valid() && (env.reset.Some? ==> env.reset.value.Rst? || env.reset.value.Abrt?)
      ensures old(pcbGone) ==> pcbGone
      modifies this`taken, this`lastdata, this`mboxValid, this`mboxClosed, this`finRxPending, this`pendingErr, this`pcbGone
      ensures Valid() && (err.Ok? <==> lastdata.Some?)
      ensures !err.Ok? ==> returned == Stream(incoming, taken)
      ensures err.Clsd? ==> FinAmong(incoming, taken) && (!nofin || old(finRxPending))
      ensures old(DataArrives(dontblock, env)) ==> err.Ok?
      ensures old(FinArrives(dontblock, env)) && !nofin ==> err.Clsd?
      ensures dontblock && err.Ok? && old(lastdata).None? ==> env.ready
      ensures !err.Ok? && !old(mboxValid) ==> err.Conn?
      ensures !err.Ok? && old(mboxValid && !finRxPending) && taken == old(taken) ==> err == old(NothingThere(env))
      ensures !err.Ok? && old(mboxValid && !finRxPending) && env.ready ==> taken == old(taken) + 1 && !incoming(old(taken)).Data?
      ensures nofin && !old(finRxPending) ==> mboxValid == old(mboxValid)
      ensures old(taken) <= taken
    {
      err := Ok;
      if lastdata.None? {
        var buf;
        err, buf := RecvDataTcp(dontblock, nofin, env);
        lastdata := buf;
        assert returned + [] == returned;
      }
    }

    /** Copy the next n bytes, and unless peeking remove them. */
    method Consume(mem: array<byte>, at: nat, n: nat, peek: bool)
      requires Valid() && lastdata.Some? && n <= |lastdata.value| && at + n <= mem.Length
      modifies mem, this`lastdata, this`returned
      ensures Valid() && mem[..] == Splice(old(mem[..]), at, old(lastdata).value[..n])
      ensures !peek && n == |old(lastdata).value| ==> lastdata.None?
      ensures returned == old(returned) + if peek then [] else old(lastdata).value[..n]
      ensures returned + (if peek then old(lastdata).value[..n] else []) <= Stream(incoming, taken)
    {
      var p := lastdata.value;
      Memcpy(mem, at, p[..n]);
      assert p == p[..n] + p[n..];
      if !peek {
        returned := returned + p[..n];
        if |p| - n > 0 {
          lastdata := Some(p[n..]);
        } else {
          lastdata := None;
        }
      }
    }

    /** lwip_recv_tcp: up to len bytes into mem; -1 on an error. It looks for packets `calls` times, and may wait
        only for the first one. */
    method Recv(mem: array<byte>, len: nat, peek: bool, dontwait: bool, env: nat -> Env) returns (r: int, errno: Err, ghost calls: nat)
      requires Valid() && len <= mem.Length
      requires forall i :: env(i).reset.Some? ==> env(i).reset.value.Rst? || env(i).reset.value.Abrt?
      modifies mem, this`taken, this`lastdata, this`mboxValid, this`mboxClosed, this`finRxPending, this`pendingErr,
        this`pcbGone, this`recved, this`returned
      ensures Valid() && -1 <= r <= len
      ensures returned == old(returned) + if peek || r < 0 then [] else mem[..r]
      ensures peek && 0 < r ==> returned + mem[..r] <= Stream(incoming, taken)
      ensures mem[Max(r, 0)..] == old(mem[Max(r, 0)..])
      ensures Sum(recved) == Sum(old(recved)) + if peek || r <= 0 || pcbGone then 0 else r
      ensures r == 0 < len ==> FinAmong(incoming, taken) && returned == Stream(incoming, taken)
      ensures old(Reported()) ==> Reported()
      ensures 0 < len && old(DataArrives(dontwait, env(0))) ==> 0 < r
      ensures old(FinArrives(dontwait, env(0))) ==> r == 0
      ensures !peek && 0 < r < Min(len, SSIZE_MAX) ==> lastdata.None?
      ensures 0 < calls && forall k :: 0 < k < calls - 1 ==> env(k).ready
      ensures r < 0 <==> !errno.Ok? && !errno.Clsd?
      ensures r < 0 && !old(mboxValid) ==> errno.Conn?
      ensures r < 0 && old(mboxValid && !finRxPending) && taken == old(taken) ==> errno == old(NothingThere(env(0)))
      ensures !peek && 0 < r < Min(len, SSIZE_MAX) && mboxValid && env(calls - 1).ready ==> 0 < taken && !incoming(taken - 1).Data?
    {
      hide Orderly, Stream, FinAmong, Sum;
      var got, err;
      got, err, calls := Collect(mem, Min(len, SSIZE_MAX), peek, dontwait, env);
      errno := Ok;
      if !err.Ok? && got == 0 {
        r, errno := if err.Clsd? then 0 else -1, err;
        return;
      }
      if got > 0 && !peek {
        DoRecv(got);
      }
      r := got;
    }

    /** The loop of lwip_recv_tcp; an error ends it. */
    method Collect(mem: array<byte>, len: nat, peek: bool, dontwait: bool, env: nat -> Env)
      returns (got: nat, err: Err, ghost calls: nat)
      requires Valid() && len <= mem.Length
      requires forall i :: env(i).reset.Some? ==> env(i).reset.value.Rst? || env(i).reset.value.Abrt?
      modifies mem, this`taken, this`lastdata, this`mboxValid, this`mboxClosed, this`finRxPending, this`pendingErr,
        this`pcbGone, this`returned
      ensures Valid() && got <= len && (old(pcbGone) ==> pcbGone)
      ensures Handed(old(mem[..]), mem[..], old(returned), returned, got, peek)
      ensures peek && 0 < got ==> returned + mem[..got] <= Stream(incoming, taken)
      ensures got == 0 < len ==> !err.Ok?
      ensures got == 0 && err.Clsd? ==> FinAmong(incoming, taken)
      ensures !err.Ok? ==> returned == Stream(incoming, taken)
      ensures 0 < len && old(DataArrives(dontwait, env(0))) ==> 0 < got
      ensures old(FinArrives(dontwait, env(0))) ==> got == 0 && err.Clsd?
      ensures !peek && 0 < got < len ==> lastdata.None? && !err.Ok?
      ensures !peek && 0 < got < len && mboxValid && 0 < calls && env(calls - 1).ready ==> 0 < taken && !incoming(taken - 1).Data?
      ensures got == 0 && !err.Ok? && !old(mboxValid) ==> err.Conn?
      ensures got == 0 && !err.Ok? && old(mboxValid && !finRxPending) && taken == old(taken) ==> err == old(NothingThere(env(0)))
      ensures 0 < calls && forall k :: 0 < k < (if err.Ok? then calls else calls - 1) ==> env(k).ready
    {
      hide Orderly, Stream, FinAmong, Handed, DataArrives, FinArrives;
      var recvLeft: nat := len;
      ghost var before, ret0 := mem[..], returned;
      assert before == old(mem[..]) && ret0 == old(returned);
      var dontblock, nofin, i := dontwait, false, 0;
      got, err, calls := 0, Ok, 0;
      HandStart(before, returned, peek);
      while true
        invariant Valid() && got + recvLeft == len && (old(pcbGone) ==> pcbGone)
        invariant (nofin <==> 0 < got) && (nofin ==> !finRxPending && !peek && 0 < recvLeft && lastdata.None?)
        invariant got == 0 ==> !nofin && dontblock == dontwait && i == 0 && unchanged(this)
        invariant 0 < got ==> !old(FinArrives(dontwait, env(0)))
        invariant (0 < got ==> dontblock) && calls == i && forall k :: 0 < k < calls ==> env(k).ready
        invariant Handed(before, mem[..], ret0, returned, got, peek)
        decreases recvLeft
      {
        ghost var m := mem[..];
        err := Fetch(dontblock, nofin, env(i));
        assert mem[..] == m;
        i := i + 1;
        calls := calls + 1;
        if !err.Ok? {
          return;
        }
        ghost var p, ret := lastdata.value, returned;
        var n: nat := if recvLeft > |lastdata.value| then |lastdata.value| else recvLeft;
        HandStep(before, m, ret0, ret, got, p[..n], peek);
        Consume(mem, got, n, peek);
        got, recvLeft := got + n, recvLeft - n;
        dontblock, nofin := true, true;
        if !(recvLeft > 0 && !peek) {
          return;
        }
      }
    }
  }

  // ---------- The receive call ----------

  function Sum(s: seq<nat>): nat {
    if s == [] then 0 else Sum(s[..|s| - 1]) + s[|s| - 1]
  }

  /** The buffer as it was, with `got` bytes at its start, which are those that were returned. */
  ghost predicate Handed(before: seq<byte>, mem: seq<byte>, old_: seq<byte>, returned: seq<byte>, got: nat, peek: bool) {
    && got <= |mem| == |before| && mem[got..] == before[got..]
    && returned == old_ + if peek then [] else mem[..got]
  }

  lemma HandStart(before: seq<byte>, returned: seq<byte>, peek: bool)
    ensures Handed(before, before, returned, returned, 0, peek)
  {
  }

  lemma HandStep(before: seq<byte>, m: seq<byte>, old_: seq<byte>, returned: seq<byte>, got: nat, chunk: seq<byte>, peek: bool)
    requires Handed(before, m, old_, returned, got, peek) && got + |chunk| <= |m|
    ensures Handed(before, Splice(m, got, chunk), old_, returned + if peek then [] else chunk, got + |chunk|, peek)
    ensures got == 0 ==> Splice(m, got, chunk)[..|chunk|] == chunk
  {
  }

  /** Once a call has returned 0, everything that ever arrives has been returned. */
  lemma EndIsTheEnd(s: Sock, n: nat)
    requires s.Valid() && FinAmong(s.incoming, s.taken) && s.returned == Stream(s.incoming, s.taken)
    ensures Stream(s.incoming, n) <= s.returned
  {
    if n <= s.taken {
      StreamGrows(s.incoming, n, s.taken);
    } else {
      CompleteAfterFin(s.incoming, s.taken, n);
    }
  }
}
