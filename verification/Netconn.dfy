/** The connection state machine below the netconn API: a blocked caller is finished later, exactly once,
    by a callback of the TCP layer. */
module Netconn {
  import PbufChain
  import opened Prelude
  import opened VectoredWrite

  datatype State = None | Write | Listen | Connect | Close

  /** What the TCP layer does when a connection is closed: the result of tcp_close or tcp_shutdown, whether
      the pcb is in a FIN_WAIT or CLOSING state, and whether its receive side is closed already. */
  datatype CloseEnv = CloseEnv(result: Err, finWait: bool, rxClosed: bool)

  /** The callbacks registered at a TCP control block. */
  class Pcb {
    var arg: bool
    var recv: bool
    var sent: bool
    var poll: bool
    var err: bool
    var accept: bool
    var listening: bool

    constructor ()
      ensures !arg && !recv && !sent && !poll && !err && !accept && !listening
    {
      arg, recv, sent, poll, err, accept, listening := false, false, false, false, false, false, false;
    }

    /** The netconn hears of polls and errors. */
    predicate Wired()
      reads this
    {
      arg && poll && err
    }

    /** Some callback of the TCP layer reaches the netconn. */
    predicate Reachable()
      reads this
    {
      arg && (poll || err || sent)
    }

    /** setup_tcp */
    method Setup()
      modifies this
      ensures Wired() && recv && sent && listening == old(listening) && accept == old(accept)
    {
      arg, recv, sent, poll, err := true, true, true, true, true;
    }
  }

  /** A message of an API call; `signals` counts the signals of its semaphore. */
  class ApiMsg {
    var err: Err
    var signals: nat
    /** the write it asks for */
    const w: WriteMsg?
    const dontblock: bool
    /** the directions it asks to shut down, and the polls left for it */
    var shutRx: bool
    var shutTx: bool
    var pollsLeft: nat
    const polls0: nat
    ghost var polls: nat

    constructor (w: WriteMsg?, dontblock: bool, shutRx: bool, shutTx: bool, polls0: nat)
      ensures signals == 0 && this.w == w && pollsLeft == polls0 == this.polls0 && polls == 0
      ensures this.dontblock == dontblock && this.shutRx == shutRx && this.shutTx == shutTx
    {
      err, signals, this.w, this.dontblock := Val, 0, w, dontblock;
      this.shutRx, this.shutTx, pollsLeft, this.polls0, polls := shutRx, shutTx, polls0, polls0, 0;
    }

    /** sys_sem_signal */
    method Signal()
      modifies this`signals
      ensures signals == old(signals) + 1
    {
      signals := signals + 1;
    }
  }

  class Connection {
    var state: State
    var pcb: Pcb?
    var currentMsg: ApiMsg?
    const nonblocking: bool
    var inNonblockingConnect: bool
    var pendingErr: Err
    /** The messages whose callers wait or have waited. */
    ghost var waited: set<ApiMsg>
    /** The last attempt to close failed for another reason than memory, after the callbacks were taken off. */
    ghost var unplugged: bool

    ghost function CurrentWrite(): WriteMsg?
      reads this
    {
      if currentMsg == null then null else currentMsg.w
    }

    /** current_msg is set exactly while a write, a close or a blocking connect is in progress. */
    ghost predicate Core()
      reads this, pcb, currentMsg, CurrentWrite()
    {
      && (currentMsg != null <==> state.Write? || state.Close? || (state.Connect? && !inNonblockingConnect))
      && (inNonblockingConnect ==> state.Connect?)
      && (state.None? || pcb != null)
      && (pcb != null && pcb.listening ==> state.Listen? || state.Close?)
      && (state.Write? ==> currentMsg.w != null && currentMsg.w.Valid() && 0 < currentMsg.w.vectorCnt && currentMsg.w.offset < currentMsg.w.len)
      && (state.Close? ==> currentMsg.polls + currentMsg.pollsLeft == currentMsg.polls0)
      && (pcb != null && !pcb.listening ==> if unplugged then !pcb.Reachable() && !pcb.Wired() else pcb.Wired())
    }

    /** Everyone who waited was signalled exactly once, but for the caller still waiting. */
    ghost predicate Accounts()
      reads this, waited
    {
      forall m :: m in waited ==> m.signals == if m == currentMsg then 0 else 1
    }

    /** What holds between calls and callbacks. */
    ghost predicate Valid()
      reads this, pcb, currentMsg, CurrentWrite(), waited
    {
      && Core() && Accounts()
      && (currentMsg != null ==> currentMsg in waited)
      && (state.Connect? || state.Close? ==> pcb.Wired())
      && (state.Close? ==> 0 < currentMsg.pollsLeft)
      && (state.Write? ==> !nonblocking && !currentMsg.dontblock)
    }

    constructor (nonblocking: bool)
      ensures Valid() && state.None? && waited == {} && pcb != null && fresh(pcb) && !pcb.listening && !unplugged
    {
      var p := new Pcb();
      state, pcb, currentMsg, this.nonblocking, inNonblockingConnect, pendingErr := State.None, p, null, nonblocking, false, Ok;
      waited, unplugged := {}, false;
      new;
      p.Setup();
    }

    /** The operation in progress is over: its result is stored and its caller woken up if it waits. */
    method Finish(err: Err, delayed: bool)
      requires currentMsg != null
      modifies this`state, this`currentMsg, currentMsg`err, currentMsg`signals
      ensures state.None? && currentMsg == null && old(currentMsg).err == err
      ensures old(currentMsg).signals == old(currentMsg.signals) + if delayed then 1 else 0
    {
      var m := currentMsg;
      m.err := err;
      currentMsg := null;
      state := State.None;
      if delayed {
        m.Signal();
      }
    }

    /** A blocking write is over because everything is written, or the connection failed. */
    ghost predicate Complete(m: ApiMsg, env: nat -> Answer, output: Err)
      reads m, m.w
      requires m.w != null
    {
      (m.err.Ok? && m.w.offset == m.w.len) || (m.err.Rte? && output.Rte?) || FailedIn(env, m.err)
    }

    /** At least what the first round could hand over is written. */
    twostate predicate Advanced(w: WriteMsg, env: nat -> Answer)
      reads w
      requires old(w.Valid())
    {
      && old(w.offset) <= w.offset && (Accepting(env) ==> old(w.offset) < w.offset)
      && (old(w.Outcome(env(0))).Ok? ==> old(w.offset) + old(w.Offered(env(0))) <= w.offset)
    }

    /** A blocking write that finds no memory at once waits, unless the packets cannot be routed. */
    twostate predicate ShortOfMemory(w: WriteMsg, env: nat -> Answer, output: Err, finished: bool)
      reads w
      requires old(w.Valid())
    {
      old(w.Outcome(env(0))).Mem? ==> (finished <==> output.Rte?) && w.offset == old(w.offset)
    }

    /** A write that does not wait writes nothing when the first round finds no memory or no space; a write whose first round
        fails otherwise is over with this error. */
    twostate predicate FirstRound(m: ApiMsg, env: nat -> Answer, dontblock: bool, finished: bool)
      reads m, m.w
      requires m.w != null && old(m.w.Valid())
    {
      && (dontblock && old(m.w.Short(env(0))) ==> m.w.offset == old(m.w.offset))
      && (old(m.w.Outcome(env(0))).Failed? && !(dontblock && old(m.w.Short(env(0)))) ==>
            finished && m.err == old(m.w.Outcome(env(0))) && m.w.offset == old(m.w.offset))
    }

    /** lwip_netconn_do_writemore; `delayed` says that the caller is waiting already. */
    method DoWritemore(delayed: bool, env: nat -> Answer, output: Err) returns (done: bool)
      requires Core() && Accounts() && state.Write? && (delayed <==> currentMsg in waited) && currentMsg.signals == 0
      requires Plausible(env) && CannotStall(currentMsg.w.vectors, nonblocking || currentMsg.dontblock, env)
      modifies this`state, this`currentMsg, currentMsg`err, currentMsg`signals, currentMsg.w
      ensures Core() && Accounts()
      ensures done ==> currentMsg == null && state.None? && old(currentMsg).signals == if delayed then 1 else 0
      ensures old(currentMsg).w.Valid() && Advanced(old(currentMsg).w, env)
      ensures !nonblocking && !old(currentMsg).dontblock ==> ShortOfMemory(old(currentMsg).w, env, output, done)
      ensures done && !nonblocking && !old(currentMsg).dontblock ==> Complete(old(currentMsg), env, output)
      ensures nonblocking || old(currentMsg).dontblock ==> old(currentMsg).w.Tried(env, output, old(currentMsg).err)
      ensures FirstRound(old(currentMsg), env, nonblocking || old(currentMsg).dontblock, done)
      ensures !done ==> state.Write? && currentMsg == old(currentMsg) && !nonblocking && !currentMsg.dontblock
      ensures !done ==> currentMsg.signals == 0
    {
      var m := currentMsg;
      var dontblock := nonblocking || m.dontblock;
      var finished, err, _ := m.w.Advance(dontblock, env, output);
      if finished {
        Finish(err, delayed);
      }
      done := finished;
    }

    /** A message that no call has used yet */
    ghost predicate Fresh(msg: ApiMsg)
      reads this, msg
    {
      msg !in waited && msg != currentMsg && msg.signals == 0
    }

    /** What every API call promises: its caller waits exactly if the message is the current one afterwards;
        otherwise it has its result, and no signal. */
    twostate predicate Answered(msg: ApiMsg, waits: bool)
      reads this, msg
    {
      && waited == old(waited) + (if waits then {msg} else {})
      && (if waits then currentMsg == msg else currentMsg == old(currentMsg))
      && msg.signals == 0
    }

    /** The first attempt to write, and waiting if it has to be continued. */
    method StartWrite(msg: ApiMsg, env: nat -> Answer, output: Err) returns (waits: bool)
      requires Core() && Accounts() && state.Write? && currentMsg == msg && msg !in waited && msg.signals == 0
      requires Plausible(env) && CannotStall(msg.w.vectors, nonblocking || msg.dontblock, env)
      modifies this`state, this`currentMsg, this`waited, msg`err, msg`signals, msg.w
      ensures Valid() && msg.signals == 0 && waited == old(waited) + (if waits then {msg} else {})
      ensures if waits then currentMsg == msg && !nonblocking && !msg.dontblock else currentMsg == null
      ensures msg.w.Valid() && Advanced(msg.w, env)
      ensures !nonblocking && !msg.dontblock ==> ShortOfMemory(msg.w, env, output, !waits)
      ensures !waits && !nonblocking && !msg.dontblock ==> Complete(msg, env, output)
      ensures nonblocking || msg.dontblock ==> msg.w.Tried(env, output, msg.err)
      ensures FirstRound(msg, env, nonblocking || msg.dontblock, !waits)
      ensures state == if waits then Write else State.None
    {
      var done := DoWritemore(false, env, output);
      waits := !done;
      if waits {
        waited := waited + {msg};
      }
    }

    predicate CanWrite()
      reads this
    {
      pendingErr.Ok? && state.None? && pcb != null
    }

    /** lwip_netconn_do_write */
    method DoWrite(msg: ApiMsg, env: nat -> Answer, output: Err) returns (waits: bool)
      requires Valid() && Fresh(msg)
      requires msg.w != null && msg.w.Valid() && 0 < msg.w.vectorCnt && msg.w.offset < msg.w.len
      requires Plausible(env) && CannotStall(msg.w.vectors, nonblocking || msg.dontblock, env)
      modifies this`state, this`currentMsg, this`pendingErr, this`waited, msg, msg.w
      ensures Valid() && Answered(msg, waits) && msg.w.Valid() && pendingErr.Ok?
      ensures !old(CanWrite()) ==> !waits && state == old(state)
      ensures !old(CanWrite()) ==>
        msg.err == if !old(pendingErr).Ok? then old(pendingErr) else if !old(state).None? then InProgress else Conn
      ensures old(CanWrite()) ==> Advanced(msg.w, env)
      ensures old(CanWrite()) && !waits && !nonblocking && !msg.dontblock ==> Complete(msg, env, output)
      ensures old(CanWrite()) && !nonblocking && !msg.dontblock ==> ShortOfMemory(msg.w, env, output, !waits)
      ensures old(CanWrite()) && (nonblocking || msg.dontblock) ==> msg.w.Tried(env, output, msg.err)
      ensures old(CanWrite()) ==> FirstRound(msg, env, nonblocking || msg.dontblock, !waits)
      ensures old(CanWrite()) ==> state == if waits then Write else State.None
      ensures nonblocking || msg.dontblock ==> !waits
      ensures waits ==> pcb != null && (pcb.Wired() <==> !unplugged) && (pcb.Reachable() <==> !unplugged)
    {
      hide PbufChain.Concat, PbufChain.Position, Plausible, CannotStall, Accepting, FailedIn, Complete;
      waits := false;
      var err := pendingErr;
      pendingErr := Ok;
      if err.Ok? {
        if !state.None? {
          // connecting, closing or in a blocking write
          err := InProgress;
        } else if pcb != null {
          state := Write;
          currentMsg := msg;
          waits := StartWrite(msg, env, output);
          return;
        } else {
          err := Conn;
        }
      }
      msg.err := err;
    }

    /** Shutting down both directions, also one after the other, is the same as closing. */
    predicate ShutClose(m: ApiMsg, env: CloseEnv)
      reads m
    {
      (m.shutRx && m.shutTx) || (m.shutRx && env.finWait) || (m.shutTx && env.rxClosed)
    }

    /** What an attempt to close with message m leaves behind: when it is finished, the state NONE, a control block
        that is gone or has lost the callbacks of what was shut down, and `unplugged` exactly after a failure;
        otherwise the state CLOSE, and the callbacks that lead back here. */
    twostate predicate CloseStep(p: Pcb, m: ApiMsg, env: CloseEnv, finished: bool)
      reads this, p, m
    {
      var shutClose := (old(m.shutRx) && old(m.shutTx)) || (old(m.shutRx) && env.finWait) || (old(m.shutTx) && env.rxClosed);
      && state == (if finished then State.None else Close) && currentMsg == (if finished then null else m)
      && pcb == (if finished && shutClose && (env.result.Ok? || env.result.Mem?) then null else p)
      && unplugged == (finished && (old(unplugged) || (shutClose && !env.result.Ok? && !env.result.Mem?)))
      && (finished ==> m.err == if shutClose && env.result.Mem? then Ok else env.result)
      && if finished then Detached(p, old(m.shutRx), old(m.shutTx), shutClose)
         else p.Wired() && p.sent == (old(p.sent) || m.shutTx) && p.recv == (old(p.recv) && !m.shutRx) && p.listening == old(p.listening)
    }

    /** lwip_netconn_do_close_internal: try to close or shut down; on a lack of memory, as long as there are
        polls left, it is tried again later. */
    method CloseInternal(delayed: bool, env: CloseEnv) returns (finished: bool)
      requires Core() && Accounts() && state.Close? && pcb != null
      requires (delayed <==> currentMsg in waited) && currentMsg.signals == 0
      requires pcb.listening ==> env.result.Ok? && currentMsg.shutRx && currentMsg.shutTx
      modifies this`state, this`currentMsg, this`pcb, this`unplugged, pcb, currentMsg`err, currentMsg`signals
      ensures Core() && Accounts() && waited == old(waited)
      ensures finished <==> !env.result.Mem? || old(currentMsg.pollsLeft) == 0
      ensures CloseStep(old(pcb), old(currentMsg), env, finished)
      ensures old(currentMsg).signals == if finished && delayed then 1 else 0
    {
      var m, tpcb := currentMsg, pcb;
      var shutClose := ShutClose(m, env);
      DetachCallbacks(tpcb, m.shutRx, m.shutTx, shutClose);
      var err := env.result;
      finished := true;
      if err.Mem? {
        if m.pollsLeft == 0 {
          if shutClose {
            // in this case, the connection is reset
            err := Ok;
          }
        } else {
          finished := false;
        }
      }
      if finished {
        if err.Ok? && shutClose {
          pcb := null;
        } else if shutClose {
          unplugged := true;
        }
        Finish(err, delayed);
        return;
      }
      assert !tpcb.listening;
      AttachCallbacks(tpcb, m.shutTx);
      unplugged := false;
    }

    /** Callbacks are taken back for what is shut down, and no others. */
    twostate predicate Detached(p: Pcb, shutRx: bool, shutTx: bool, shutClose: bool)
      reads p
    {
      var all := !p.listening;
      && p.listening == old(p.listening) && p.arg == (old(p.arg) && !shutClose)
      && p.accept == (old(p.accept) && all && !shutRx)
      && p.recv == (old(p.recv) && !(all && shutRx)) && p.sent == (old(p.sent) && !(all && shutTx))
      && p.poll == (old(p.poll) && !(all && shutClose)) && p.err == (old(p.err) && !(all && shutClose))
    }

    /** Take back the callbacks before closing. */
    method DetachCallbacks(p: Pcb, shutRx: bool, shutTx: bool, shutClose: bool)
      modifies p
      ensures Detached(p, shutRx, shutTx, shutClose)
    {
      if shutClose {
        p.arg := false;
      }
      if p.listening {
        p.accept := false;
      } else {
        if shutRx {
          p.recv, p.accept := false, false;
        }
        if shutTx {
          p.sent := false;
        }
        if shutClose {
          p.poll, p.err := false, false;
        }
      }
    }

    /** Closing failed and is tried again: restore the callbacks that lead back here. */
    method AttachCallbacks(p: Pcb, shutTx: bool)
      modifies p
      ensures p.Wired() && p.listening == old(p.listening) && p.sent == (old(p.sent) || shutTx)
      ensures p.recv == old(p.recv) && p.accept == old(p.accept)
    {
      if shutTx {
        p.sent := true;
      }
      p.poll, p.err, p.arg := true, true, true;
    }

    /** State, control block and callbacks are as before. */
    twostate predicate Undisturbed()
      reads this, pcb
    {
      state == old(state) && pcb == old(pcb) && unplugged == old(unplugged) && (pcb != null ==> unchanged(pcb))
    }

    /** Connected, or listening and to be closed in both directions. */
    predicate CanClose(msg: ApiMsg)
      reads this, msg
    {
      pcb != null && (state.None? || (state.Listen? && msg.shutRx && msg.shutTx))
    }

    /** lwip_netconn_do_close, without another close in progress */
    method DoClose(msg: ApiMsg, env: CloseEnv) returns (waits: bool)
      requires Valid() && Fresh(msg) && !state.Close? && msg.polls + msg.pollsLeft == msg.polls0
      requires pcb != null && pcb.listening ==> env.result.Ok?
      modifies this`state, this`currentMsg, this`pcb, this`unplugged, this`waited, pcb, msg
      ensures Valid() && Answered(msg, waits)
      ensures old(CanClose(msg)) ==> (waits <==> env.result.Mem? && 0 < msg.pollsLeft)
      ensures old(CanClose(msg)) ==> CloseStep(old(pcb), msg, env, !waits)
      ensures !old(CanClose(msg)) ==> !waits && Undisturbed()
      ensures !old(CanClose(msg)) ==> msg.err == if pcb != null && state.Write? then InProgress else Conn
    {
      waits := false;
      if pcb != null && ((msg.shutRx && msg.shutTx) || !state.Listen?) {
        if state.Connect? {
          // connect in progress: cannot shut down
          msg.err := Conn;
        } else if state.Write? {
          msg.err := InProgress;
        } else {
          assert currentMsg == null;
          state := Close;
          currentMsg := msg;
          waits := StartClose(msg, env);
        }
      } else {
        msg.err := Conn;
      }
    }

    /** The first attempt to close, and waiting if it has to be repeated. */
    method StartClose(msg: ApiMsg, env: CloseEnv) returns (waits: bool)
      requires Core() && Accounts() && state.Close? && pcb != null && currentMsg == msg && msg !in waited && msg.signals == 0
      requires pcb.listening ==> env.result.Ok? && currentMsg.shutRx && currentMsg.shutTx
      modifies this`state, this`currentMsg, this`pcb, this`unplugged, this`waited, pcb, msg`err, msg`signals
      ensures Valid() && msg.signals == 0 && waited == old(waited) + (if waits then {msg} else {})
      ensures waits <==> env.result.Mem? && 0 < msg.pollsLeft
      ensures CloseStep(old(pcb), msg, env, !waits)
    {
      var finished := CloseInternal(false, env);
      waits := !finished;
      if waits {
        waited := waited + {msg};
      }
    }

    /** The attempt to close in both directions for which a deleted connection has been prepared. */
    twostate predicate Deleted(p: Pcb, msg: ApiMsg, env: CloseEnv, waits: bool)
      reads this, p, msg
    {
      && state == (if waits then Close else State.None)
      && pcb == (if waits || !(env.result.Ok? || env.result.Mem?) then p else null)
      && unplugged == (!waits && (old(unplugged) || !(env.result.Ok? || env.result.Mem?)))
      && (!waits ==> msg.err == if env.result.Mem? then Ok else env.result)
      && if waits then p.Wired() && p.sent && !p.recv else Detached(p, true, true, true)
    }

    /** lwip_netconn_do_delconn, but not during a non-blocking connect */
    method DoDelconn(msg: ApiMsg, env: CloseEnv) returns (waits: bool)
      requires Valid() && Fresh(msg) && !inNonblockingConnect && msg.polls + msg.pollsLeft == msg.polls0
      requires pcb != null && pcb.listening ==> env.result.Ok?
      modifies this`state, this`currentMsg, this`pcb, this`unplugged, this`waited, pcb, msg
      ensures Valid() && Answered(msg, waits)
      ensures old(currentMsg) != null ==> !waits && Undisturbed() && msg.err.InProgress?
      ensures old(currentMsg) == null && pcb == null && old(pcb) == null ==> !waits && Undisturbed() && msg.err.Ok?
      ensures old(currentMsg) == null && old(pcb) != null ==> (waits <==> env.result.Mem? && 0 < msg.pollsLeft)
      ensures old(currentMsg) == null && old(pcb) != null ==> Deleted(old(pcb), msg, env, waits)
    {
      waits := false;
      if (!state.None? && !state.Listen? && !state.Connect?) || (state.Connect? && !inNonblockingConnect) {
        // a blocking write or connect is running
        msg.err := InProgress;
      } else {
        msg.err := Ok;
        if pcb != null {
          assert currentMsg == null;
          state := Close;
          msg.shutRx, msg.shutTx := true, true;
          currentMsg := msg;
          waits := StartClose(msg, env);
        }
      }
    }

    /** lwip_netconn_do_connect; `result` is what tcp_connect returns */
    method DoConnect(msg: ApiMsg, result: Err) returns (waits: bool)
      requires Valid() && Fresh(msg)
      requires pcb != null && pcb.listening ==> !result.Ok?
      modifies this`state, this`currentMsg, this`inNonblockingConnect, this`waited, this`unplugged, pcb, msg
      ensures Valid() && Answered(msg, waits)
      ensures waits <==> old(state).None? && pcb != null && result.Ok? && !nonblocking
      ensures waits ==> msg.err == old(msg.err)
      ensures pcb == null ==> msg.err.Clsd?
      ensures pcb != null && old(state).Connect? ==> msg.err.Already?
      ensures pcb != null && !old(state).Connect? && !old(state).None? ==> msg.err.IsConn?
      ensures pcb != null && old(state).None? && !result.Ok? ==> msg.err == result && state.None?
      ensures pcb != null && old(state).None? && result.Ok? ==> state.Connect? && inNonblockingConnect == nonblocking
      ensures pcb != null && old(state).None? && result.Ok? && nonblocking ==> msg.err.InProgress?
      ensures old(state).None? && pcb != null ==> pcb.Wired() && !unplugged
      ensures pcb == null || !old(state).None? ==> Undisturbed()
    {
      hide PbufChain.Concat, PbufChain.Position;
      waits := false;
      var err: Err;
      if pcb == null {
        err := Clsd;
      } else if state.Connect? {
        err := Already;
      } else if !state.None? {
        err := IsConn;
      } else {
        pcb.Setup();
        unplugged := false;
        err := result;
        if err.Ok? {
          state := Connect;
          inNonblockingConnect := nonblocking;
          if nonblocking {
            err := InProgress;
          } else {
            currentMsg := msg;
            waits := true;
            waited := waited + {msg};
            return;
          }
        }
      }
      msg.err := err;
    }

    /** lwip_netconn_do_connected: the TCP layer reports the outcome of tcp_connect. */
    method DoConnected(err: Err)
      requires Valid() && state.Connect?
      modifies this`state, this`currentMsg, this`inNonblockingConnect, this`unplugged, pcb, currentMsg
      ensures Valid() && state.None? && currentMsg == null && waited == old(waited)
      ensures old(currentMsg) != null <==> !old(inNonblockingConnect)
      ensures old(currentMsg) != null ==> old(currentMsg).err == err && old(currentMsg).signals == 1
      ensures err.Ok? ==> pcb.recv && pcb.sent
    {
      assert currentMsg != null || inNonblockingConnect;
      if err.Ok? {
        pcb.Setup();
      }
      var wasBlocking := !inNonblockingConnect;
      inNonblockingConnect := false;
      assert wasBlocking <==> currentMsg != null;
      if currentMsg != null {
        Finish(err, wasBlocking);
      } else {
        state := State.None;
      }
    }

    predicate CanListen()
      reads this
    {
      pcb != null && state.None?
    }

    /** The part of lwip_netconn_do_listen that concerns the state; `closed` says that the pcb is in state
        CLOSED, `listened` that a listening pcb was allocated, `mbox` the result of creating the mailbox. */
    method DoListen(msg: ApiMsg, closed: bool, listened: bool, mbox: Err)
      requires Valid() && Fresh(msg)
      modifies this`state, this`pcb, msg
      ensures Valid() && Answered(msg, false)
      ensures state == if old(CanListen()) && closed && listened && mbox.Ok? then Listen else old(state)
      ensures msg.err == if old(CanListen()) then (if !closed then Val else if !listened then Mem else mbox)
                         else if old(pcb) != null && old(state).Listen? then Ok else Conn
      ensures if old(CanListen()) && closed && listened then
                if mbox.Ok? then pcb != null && fresh(pcb) && pcb.listening && pcb.arg && pcb.accept else pcb == null
              else pcb == old(pcb)
    {
      if pcb != null {
        if state.None? {
          if !closed {
            msg.err := Val;
          } else if !listened {
            msg.err := Mem;
          } else {
            msg.err := mbox;
            if mbox.Ok? {
              state := Listen;
              var lpcb := new Pcb();
              lpcb.arg, lpcb.accept, lpcb.listening := true, true, true;
              pcb := lpcb;
            } else {
              pcb := null;
            }
          }
        } else if state.Listen? {
          msg.err := Ok;
        } else {
          msg.err := Conn;
        }
      } else {
        msg.err := Conn;
      }
    }

    // ---------- Callbacks of the TCP layer ----------

    /** The caller of m, who waited, is woken up now, or waits on. */
    twostate predicate WokenOrWaiting(m: ApiMsg?)
      reads this, m
    {
      && waited == old(waited)
      && (currentMsg == m || currentMsg == null)
      && (m != null ==> m.signals == if currentMsg == null then 1 else 0)
    }

    /** A close in progress makes one attempt more; a write in progress is over or goes on, and then, as when nothing
        is in progress, the control block and its callbacks are as before. */
    twostate predicate Continued(m: ApiMsg?, p: Pcb?, close: CloseEnv)
      reads this, pcb, p, m
      requires old(state).Close? ==> p != null && m != null
    {
      if old(state).Close? then CloseStep(p, m, close, currentMsg == null)
      else if old(state).Write? && currentMsg == null then
        state.None? && pcb == old(pcb) && unplugged == old(unplugged) && (pcb != null ==> unchanged(pcb))
      else Undisturbed() && currentMsg == m
    }

    /** The common part of poll_tcp and sent_tcp: go on with the operation in progress. */
    method Continue(env: nat -> Answer, output: Err, close: CloseEnv)
      requires Core() && Accounts() && (currentMsg != null ==> currentMsg in waited)
      requires (state.Connect? || state.Close? ==> pcb != null && pcb.Wired()) && (state.Write? ==> !nonblocking && !currentMsg.dontblock)
      requires Plausible(env) && (state.Write? ==> CannotStall(currentMsg.w.vectors, false, env)) && !(pcb != null && pcb.listening)
      modifies this`state, this`currentMsg, this`pcb, this`unplugged, pcb, currentMsg, CurrentWrite()
      ensures Valid() && WokenOrWaiting(old(currentMsg))
      ensures old(state).Close? ==> (currentMsg != null <==> close.result.Mem? && 0 < old(currentMsg.pollsLeft))
      ensures Continued(old(currentMsg), old(pcb), close)
      ensures currentMsg != null ==> currentMsg.pollsLeft == old(currentMsg.pollsLeft)
      ensures old(state).Write? ==> old(currentMsg).w.Valid() && Advanced(old(currentMsg).w, env)
      ensures old(state).Write? && currentMsg == null ==> Complete(old(currentMsg), env, output)
      ensures old(state).Write? ==> FirstRound(old(currentMsg), env, false, currentMsg == null)
      ensures old(state).Write? ==> ShortOfMemory(old(currentMsg).w, env, output, currentMsg == null)
    {
      if state.Write? {
        var done := DoWritemore(true, env, output);
      } else if state.Close? {
        var finished := CloseInternal(true, close);
      }
    }

    /** poll_tcp */
    method PollTcp(env: nat -> Answer, output: Err, close: CloseEnv)
      requires Valid() && pcb != null && !pcb.listening && pcb.arg && pcb.poll
      requires Plausible(env) && (state.Write? ==> CannotStall(currentMsg.w.vectors, false, env))
      modifies this`state, this`currentMsg, this`pcb, this`unplugged, pcb, currentMsg, CurrentWrite()
      ensures Valid() && WokenOrWaiting(old(currentMsg))
      ensures old(state).Close? ==> (currentMsg != null <==> close.result.Mem? && 1 < old(currentMsg.pollsLeft))
      ensures Continued(old(currentMsg), old(pcb), close)
      ensures old(state).Close? && currentMsg != null ==> currentMsg.pollsLeft == old(currentMsg.pollsLeft) - 1
      ensures old(state).Write? ==> old(currentMsg).w.Valid() && Advanced(old(currentMsg).w, env)
      ensures old(state).Write? && currentMsg == null ==> Complete(old(currentMsg), env, output)
      ensures old(state).Write? ==> FirstRound(old(currentMsg), env, false, currentMsg == null)
      ensures old(state).Write? ==> ShortOfMemory(old(currentMsg).w, env, output, currentMsg == null)
    {
      if state.Close? && currentMsg.pollsLeft != 0 {
        currentMsg.pollsLeft := currentMsg.pollsLeft - 1;
        currentMsg.polls := currentMsg.polls + 1;
      }
      Continue(env, output, close);
    }

    /** sent_tcp */
    method SentTcp(env: nat -> Answer, output: Err, close: CloseEnv)
      requires Valid() && pcb != null && !pcb.listening && pcb.arg && pcb.sent
      requires Plausible(env) && (state.Write? ==> CannotStall(currentMsg.w.vectors, false, env))
      modifies this`state, this`currentMsg, this`pcb, this`unplugged, pcb, currentMsg, CurrentWrite()
      ensures Valid() && WokenOrWaiting(old(currentMsg))
      ensures currentMsg != null ==> currentMsg.pollsLeft == old(currentMsg.pollsLeft)
      ensures Continued(old(currentMsg), old(pcb), close)
      ensures old(state).Close? ==> (currentMsg != null <==> close.result.Mem?)
      ensures old(state).Write? ==> old(currentMsg).w.Valid() && Advanced(old(currentMsg).w, env)
      ensures old(state).Write? && currentMsg == null ==> Complete(old(currentMsg), env, output)
      ensures old(state).Write? ==> FirstRound(old(currentMsg), env, false, currentMsg == null)
      ensures old(state).Write? ==> ShortOfMemory(old(currentMsg).w, env, output, currentMsg == null)
    {
      Continue(env, output, close);
    }

    /** err_tcp: the pcb is gone, so whatever was in progress is over. */
    method ErrTcp(err: Err)
      requires Valid() && pcb != null && pcb.arg && pcb.err
      modifies this`state, this`pcb, this`currentMsg, this`pendingErr, this`inNonblockingConnect, currentMsg
      ensures Valid() && state.None? && pcb == null && currentMsg == null && pendingErr == err
      ensures WokenOrWaiting(old(currentMsg))
      ensures old(currentMsg) != null ==> old(currentMsg).err == if old(state).Close? then Ok else err
    {
      pcb := null;
      pendingErr := err;
      var oldState := state;
      state := State.None;
      if oldState.Write? || oldState.Close? || oldState.Connect? {
        var wasNonblockingConnect := inNonblockingConnect;
        inNonblockingConnect := false;
        if !wasNonblockingConnect {
          assert currentMsg != null;
          Finish(if oldState.Close? then Ok else err, true);
        }
      } else {
        assert currentMsg == null;
      }
    }

    /** The polls of the TCP timer alone end a close: at the first that does not fail for a lack of memory, or
        at the last one it was given. Its caller is woken up once. */
    method PollUntilClosed(env: nat -> Answer, output: Err, close: nat -> CloseEnv) returns (n: nat)
      requires Valid() && state.Close? && !pcb.listening && Plausible(env)
      modifies this`state, this`currentMsg, this`pcb, this`unplugged, pcb, currentMsg, CurrentWrite()
      ensures Valid() && state.None? && currentMsg == null && old(currentMsg).signals == 1
      ensures 0 < n <= old(currentMsg.pollsLeft) <= old(currentMsg).polls0
      ensures forall k :: 0 <= k < n - 1 ==> close(k).result.Mem?
      ensures close(n - 1).result.Mem? ==> n == old(currentMsg.pollsLeft)
    {
      ghost var m := currentMsg;
      n := 0;
      while currentMsg != null
        invariant Valid() && m in waited && (if currentMsg == null then state.None? else state.Close?)
        invariant currentMsg == m || (currentMsg == null && 0 < n)
        invariant currentMsg != null ==> pcb == old(pcb) && !pcb.listening && m.pollsLeft == old(m.pollsLeft) - n
        invariant n <= old(m.pollsLeft)
        invariant forall k :: 0 <= k < (if currentMsg == null then n - 1 else n) ==> close(k).result.Mem?
        invariant currentMsg == null ==> m.signals == 1 && (close(n - 1).result.Mem? ==> n == old(m.pollsLeft))
        decreases old(m.pollsLeft) - n
      {
        PollTcp(env, output, close(n));
        n := n + 1;
      }
    }

    /** Polls and acknowledgements, in any order, end a blocking write: if every one of them finds some space in the
        send buffer, there are no more of them than there were bytes left. Its caller is woken up once. */
    method CallUntilWritten(polls: nat -> bool, env: nat -> nat -> Answer, output: nat -> Err, close: CloseEnv) returns (n: nat)
      requires Valid() && state.Write? && !unplugged && (pcb.sent || forall k :: polls(k))
      requires forall k :: Plausible(env(k)) && Accepting(env(k))
      modifies this`state, this`currentMsg, this`pcb, this`unplugged, pcb, currentMsg, CurrentWrite()
      ensures Valid() && state.None? && currentMsg == null && pcb == old(pcb) && unchanged(old(pcb))
      ensures old(currentMsg).signals == 1 && 0 < n <= old(currentMsg.w.len - currentMsg.w.offset)
      ensures var m := old(currentMsg);
        (m.err.Ok? && m.w.accepted == PbufChain.Concat(m.w.vectors)) || (m.err.Rte? && exists k: nat :: output(k).Rte?)
    {
      ghost var m := currentMsg;
      n := 0;
      while currentMsg != null
        invariant Valid() && m in waited && m.w == old(currentMsg.w) && m.w != null && m.w.Valid()
        invariant pcb == old(pcb) && !unplugged && unchanged(pcb) && (if currentMsg == null then state.None? else state.Write?)
        invariant currentMsg == m || (currentMsg == null && 0 < n)
        invariant old(currentMsg.w.offset) + n <= m.w.offset <= m.w.len
        invariant currentMsg == null ==> m.signals == 1 && (m.err.Ok? || (m.err.Rte? && exists k: nat :: output(k).Rte?))
        invariant currentMsg == null && m.err.Ok? ==> m.w.offset == m.w.len
        decreases currentMsg != null, m.w.len - m.w.offset
      {
        assert Plausible(env(n)) && Accepting(env(n)) && CannotStall(m.w.vectors, false, env(n));
        if polls(n) {
          PollTcp(env(n), output(n), close);
        } else {
          SentTcp(env(n), output(n), close);
        }
        n := n + 1;
      }
      if m.err.Ok? { WholeAccepted(m.w); }
    }

    /** Why `unplugged` matters: a close in both directions that fails, but not for a lack of memory, leaves a control
        block without callbacks. A blocking write that then finds no memory waits, and nothing will wake it up. */
    method WriteAfterFailedClose(closing: ApiMsg, writing: ApiMsg, close: CloseEnv, env: nat -> Answer, output: Err)
      requires Valid() && CanWrite() && !nonblocking && Fresh(closing) && Fresh(writing) && closing != writing
      requires closing.shutRx && closing.shutTx && closing.polls + closing.pollsLeft == closing.polls0 && close.result.Failed?
      requires writing.w != null && writing.w.Valid() && 0 < writing.w.vectorCnt && writing.w.offset < writing.w.len
      requires !writing.dontblock && Plausible(env) && CannotStall(writing.w.vectors, false, env)
      requires writing.w.Outcome(env(0)).Mem? && !output.Rte?
      modifies this`state, this`currentMsg, this`pcb, this`unplugged, this`waited, this`pendingErr, pcb, closing, writing, writing.w
      ensures Valid() && state.Write? && currentMsg == writing && writing in waited && writing.signals == 0
      ensures unplugged && pcb == old(pcb) && pcb != null && !pcb.Reachable()
    {
      var closeWaits := DoClose(closing, close);
      var writeWaits := DoWrite(writing, env, output);
    }
  }

  /** netconn_write_vectors_partly: `flag` is NETCONN_DONTBLOCK, `counted` says that the caller wants the number
      of bytes written, and a size_t has `limit` values. The result is in the message once the caller does not
      wait (any more). */
  method WriteVectorsPartly(c: Connection, vectors: seq<seq<byte>>, flag: bool, counted: bool, limit: nat, env: nat -> Answer, output: Err)
    returns (err: Err, msg: ApiMsg?, waits: bool)
    requires c.Valid() && 0 < limit && forall v :: v in vectors ==> |v| < limit
    requires Plausible(env) && CannotStall(vectors, c.nonblocking || flag, env)
    modifies c`state, c`currentMsg, c`pendingErr, c`waited
    ensures c.Valid()
    ensures msg == null ==> !waits && err == if ((c.nonblocking || flag) && !counted) || limit <= |PbufChain.Concat(vectors)| then Val else Ok
    ensures msg != null ==> fresh(msg) && msg.w != null && msg.w.vectors == vectors && msg.dontblock == flag && (waits <==> c.currentMsg == msg)
    ensures msg != null && !waits ==> err == msg.err
    ensures msg != null && (c.nonblocking || flag) && old(c.CanWrite()) ==> !waits && msg.w.Tried(env, output, err)
    ensures err.Ok? && !waits && !(c.nonblocking || flag) ==>
      PbufChain.Concat(vectors) == if msg == null then [] else msg.w.accepted
  {
    hide PbufChain.Concat, PbufChain.Position, Plausible, CannotStall, Accepting;
    NothingToWrite();
    msg, waits := null, false;
    var dontblock := c.nonblocking || flag;
    if dontblock && !counted {
      return Val, null, false;
    }
    var size := TotalSize(vectors, limit);
    if size.None? {
      return Val, null, false;
    }
    if size.value == 0 {
      return Ok, null, false;
    }
    var w := new WriteMsg(vectors);
    msg := new ApiMsg(w, flag, false, false, 0);
    waits := c.DoWrite(msg, env, output);
    err := msg.err;
    if err.Ok? && !waits && !dontblock {
      assert w.offset == w.len;
      WholeAccepted(w);
    }
  }

  lemma NothingToWrite()
    ensures PbufChain.Concat([]) == []
  {
  }

  /** When every byte is written, all vectors are. */
  lemma WholeAccepted(w: WriteMsg)
    requires w.Valid() && w.offset == w.len
    ensures w.accepted == PbufChain.Concat(w.vectors)
  {
  }
}
