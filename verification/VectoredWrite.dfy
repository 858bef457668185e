/** A write of several buffers over TCP that may stop anywhere and be resumed later. */
module VectoredWrite {
  import opened Arith
  import opened PbufChain
  import opened Prelude

  /** What the TCP layer answers in one round: the space in its send buffer, and the result of tcp_write, for
      some bytes and for none. */
  datatype Answer = Answer(sndbuf: nat, write: Err, empty: Err)

  /** An environment: one answer for every round. Memory is not short for an empty write. */
  ghost predicate Plausible(env: nat -> Answer) {
    forall i ::
      && env(i).sndbuf < M16 && (env(i).write.Ok? || env(i).write.Mem? || env(i).write.Failed?)
      && (env(i).empty.Ok? || env(i).empty.Failed?)
  }

  /** Every round finds some space in the send buffer, and no write fails. */
  ghost predicate Accepting(env: nat -> Answer) {
    forall i :: 0 < env(i).sndbuf && env(i).write.Ok? && env(i).empty.Ok?
  }

  /** The error of some round */
  ghost predicate FailedIn(env: nat -> Answer, err: Err) {
    err.Failed? && exists i: nat :: err == env(i).write || err == env(i).empty
  }

  /** A send buffer without space: nothing is offered to tcp_write, which takes it. */
  const FULL := Answer(0, Ok, Ok)

  /** The part of msg.w that a write changes, and the bytes accepted by tcp_write so far. */
  class WriteMsg {
    const vectors: seq<seq<byte>>
    const len: nat
    var vector: nat
    var vectorCnt: nat
    var vectorOff: nat
    var offset: nat
    ghost var accepted: seq<byte>

    /** The accepted bytes are exactly the first `offset` ones of the vectors, in order. */
    ghost predicate Valid()
      reads this
    {
      && vectors != [] && len == |Concat(vectors)|
      && vector < |vectors| && vectorOff <= |vectors[vector]|
      && (if vectorCnt == 0 then vector == |vectors| - 1 && vectorOff == |vectors[vector]|
          else vector + vectorCnt == |vectors| && (vectorOff == |vectors[vector]| ==> vectorOff == 0))
      && offset == Position(vectors, vector, vectorOff) && offset <= len
      && accepted == Concat(vectors)[..offset]
    }

    constructor (vectors: seq<seq<byte>>)
      requires vectors != []
      ensures Valid() && this.vectors == vectors && offset == 0 && vectorCnt == |vectors|
    {
      this.vectors := vectors;
      len := |Concat(vectors)|;
      vector, vectorCnt, vectorOff, offset, accepted := 0, |vectors|, 0, 0, [];
      new;
      assert vectors[..0] == [];
    }

    /** Bytes left in the current vector */
    ghost function Diff(): nat
      reads this
      requires Valid()
    {
      |vectors[vector]| - vectorOff
    }

    /** How much one round offers to tcp_write. */
    ghost function Offered(a: Answer): nat
      reads this
      requires Valid()
    {
      Min(Min(Diff(), 0xFFFF), a.sndbuf)
    }

    /** The result of tcp_write in one round */
    ghost function Outcome(a: Answer): Err
      reads this
      requires Valid()
    {
      if Offered(a) == 0 then a.empty else a.write
    }

    /** There is no space in the send buffer for bytes that are left, or no memory for them. */
    ghost predicate Short(a: Answer)
      reads this
      requires Valid()
    {
      (a.sndbuf == 0 && 0 < Diff()) || Outcome(a).Mem?
    }

    /** The result of a write that does not wait: ERR_OK if some bytes were written, ERR_WOULDBLOCK if none were for want of
        memory or buffer space, or else the error of the route or of tcp_write. */
    ghost predicate Tried(env: nat -> Answer, output: Err, err: Err)
      reads this
    {
      || (err.Ok? && 0 < offset && !output.Rte?)
      || (err.WouldBlock? && offset == 0 && exists i: nat :: env(i).sndbuf == 0 || env(i).write.Mem?)
      || (err.Rte? && output.Rte?)
      || FailedIn(env, err)
    }

    /** One round of the loop of lwip_netconn_do_writemore. `blocked` is the jump out of the loop. */
    method Round(dontblock: bool, a: Answer) returns (err: Err, writeMore: bool, blocked: bool)
      requires Valid() && 0 < vectorCnt && a.sndbuf < M16
      modifies this
      ensures Valid() && (vectorCnt == 0 ==> err.Ok? && !writeMore && !blocked)
      ensures blocked <==> dontblock && a.sndbuf == 0 && 0 < old(Diff())
      ensures blocked ==> err == (if offset == 0 then WouldBlock else Ok) && !writeMore
      ensures !blocked ==> err == old(Outcome(a))
      ensures !blocked && err.Ok? ==> offset == old(offset) + old(Offered(a))
      ensures blocked || !err.Ok? ==> unchanged(this)
      ensures !blocked && err.Ok? && !writeMore && 0 < vectorCnt ==> old(Offered(a)) == a.sndbuf < 0xFFFF && 0 < Diff() && 0 < old(Diff())
      ensures writeMore && err.Ok? ==> (Progress() <==> !old(Stalls(dontblock, a)))
      ensures old(Stalls(dontblock, a)) ==> writeMore && err.Ok? && unchanged(this)
    {
      hide Concat;
      var diff := |vectors[vector]| - vectorOff;
      var n := if diff > 0xFFFF then 0xFFFF else diff;
      var available := a.sndbuf;
      blocked := false;
      if available < n {
        n := available;
        if dontblock && n == 0 {
          blocked, writeMore := true, false;
          err := if offset == 0 then WouldBlock else Ok;
          return;
        }
      }
      writeMore := (n == 0xFFFF && diff > 0xFFFF) || (n == diff % M16 && vectorCnt > 1);
      err := if n == 0 then a.empty else a.write;
      if err.Ok? {
        Accept(n);
      }
    }

    /** tcp_write has accepted the next n bytes. */
    method Accept(n: nat)
      requires Valid() && 0 < vectorCnt && n <= Diff()
      modifies this
      ensures Valid() && offset == old(offset) + n
      ensures if n == old(Diff()) then vectorCnt == old(vectorCnt) - 1
              else vectorCnt == old(vectorCnt) && Diff() == old(Diff()) - n
      ensures n == 0 < old(Diff()) ==> unchanged(this)
    {
      AcceptStep(vectors, vector, vectorOff, n);
      accepted := accepted + vectors[vector][vectorOff..vectorOff + n];
      offset := offset + n;
      vectorOff := vectorOff + n;
      if vectorOff == |vectors[vector]| {
        vectorCnt := vectorCnt - 1;
        if vectorCnt > 0 {
          NextPiece(vectors, vector);
          vector := vector + 1;
          vectorOff := 0;
        }
      }
    }

    /** The loop of lwip_netconn_do_writemore: rounds until one is blocked, fails, or does not ask for another one. */
    method Rounds(dontblock: bool, env: nat -> Answer) returns (err: Err, blocked: bool, rounds: nat)
      requires Valid() && 0 < vectorCnt && offset < len && Plausible(env) && CannotStall(vectors, dontblock, env)
      modifies this
      ensures Valid() && old(offset) <= offset && old(accepted) <= accepted && 0 < rounds
      ensures old(Outcome(env(0))).Ok? ==> old(offset) + old(Offered(env(0))) <= offset
      ensures forall i :: 0 <= i < rounds - 1 ==> env(i).write.Ok? || env(i).empty.Ok?
      ensures 1 < rounds ==> old(Outcome(env(0))).Ok? && !(dontblock && old(Short(env(0))))
      ensures rounds == 1 ==> (blocked <==> dontblock && env(0).sndbuf == 0 && 0 < old(Diff()))
      ensures rounds == 1 && !blocked ==> err == old(Outcome(env(0)))
      ensures rounds == 1 && (blocked || !err.Ok?) ==> offset == old(offset)
      ensures var a := env(rounds - 1); blocked ==> dontblock && a.sndbuf == 0 && 0 < Diff() && err == if offset == 0 then WouldBlock else Ok
      ensures !blocked && 0 < vectorCnt ==> err == Outcome(env(rounds - 1))
      ensures !blocked && vectorCnt == 0 ==> err.Ok?
      ensures !blocked && err.Ok? && 0 < vectorCnt ==>
        env(rounds - 1).sndbuf < 0xFFFF && 0 < Diff() && old(offset) + env(rounds - 1).sndbuf <= offset && (dontblock ==> 0 < env(rounds - 1).sndbuf)
    {
      hide Concat, Position, CannotStall, Stalls, Plausible;
      rounds := 0;
      var writeMore;
      while true
        invariant Valid() && 0 < vectorCnt && old(offset) <= offset && old(accepted) <= accepted
        invariant rounds == 0 ==> unchanged(this)
        invariant 0 < rounds ==> old(Outcome(env(0))).Ok? && old(offset) + old(Offered(env(0))) <= offset
        invariant 0 < rounds ==> !(dontblock && old(Short(env(0))))
        invariant forall j :: 0 <= j < rounds ==> env(j).write.Ok? || env(j).empty.Ok?
        decreases vectorCnt, Diff()
      {
        ghost var off, acc := offset, accepted;
        assert env(rounds).sndbuf < M16 by { SmallBuffer(env, rounds); }
        NeverStalls(dontblock, env, rounds);
        err, writeMore, blocked := Round(dontblock, env(rounds));
        GrowsTo(acc, accepted, Concat(vectors), off, offset);
        rounds := rounds + 1;
        if !(writeMore && err.Ok?) {
          return;
        }
      }
    }

    /** lwip_netconn_do_writemore up to the decision whether the write is finished, and with what result.
        `output` is the result of tcp_output. A write is left unfinished only if the last of its rounds found
        no memory or used up the send buffer. */
    method Advance(dontblock: bool, env: nat -> Answer, output: Err) returns (finished: bool, err: Err, ghost rounds: nat)
      requires Valid() && 0 < vectorCnt && offset < len && Plausible(env) && CannotStall(vectors, dontblock, env)
      modifies this
      ensures Valid() && old(offset) <= offset && old(accepted) <= accepted
      ensures old(Outcome(env(0))).Ok? ==> old(offset) + old(Offered(env(0))) <= offset
      ensures Accepting(env) ==> old(offset) < offset
      ensures !dontblock && old(Outcome(env(0))).Mem? ==> (finished <==> output.Rte?) && offset == old(offset)
      ensures 0 < rounds && forall i :: 0 <= i < rounds - 1 ==> env(i).write.Ok? || env(i).empty.Ok?
      ensures dontblock ==> finished && Tried(env, output, err)
      ensures dontblock && old(Short(env(0))) ==> offset == old(offset)
      ensures old(Outcome(env(0))).Failed? && !(dontblock && old(Short(env(0)))) ==>
        finished && err == old(Outcome(env(0))) && offset == old(offset)
      ensures var a := env(rounds - 1); 0 < vectorCnt && Outcome(a).Failed? && !(dontblock && Short(a)) ==> finished && err == Outcome(a)
      ensures output.Rte? ==> finished && (err.Rte? || err.WouldBlock? || err.Failed?)
      ensures finished && err.Rte? ==> output.Rte?
      ensures finished && !dontblock ==> (err.Ok? && offset == len) || err.Rte? || FailedIn(env, err)
      ensures finished && err.WouldBlock? ==> dontblock && offset == 0
      ensures !finished ==> var a := env(rounds - 1); a.write.Mem? || (a.sndbuf < 0xFFFF && 0 < Diff())
      ensures !finished ==> 0 < vectorCnt && offset < len
    {
      hide Concat, Position, CannotStall, Stalls, Outcome, Offered, Plausible, Diff, Valid;
      OutcomeOf(env, 0);
      var blocked;
      err, blocked, rounds := Rounds(dontblock, env);
      OutcomeOf(env, rounds - 1);
      AtTheEnd();
      finished, err := Conclude(dontblock, err, output);
    }

    /** The end of lwip_netconn_do_writemore */
    method Conclude(dontblock: bool, result: Err, output: Err) returns (finished: bool, err: Err)
      ensures finished <==> (output.Rte? && (result.Ok? || result.Mem?)) || dontblock || (result.Ok? && offset == len) || !(result.Ok? || result.Mem?)
      ensures finished ==> err == if result.Ok? || result.Mem? then
                if output.Rte? then Rte
                else if result.Mem? then (if offset == 0 then WouldBlock else Ok) else Ok
              else result
    {
      finished, err := false, result;
      if err.Ok? {
        finished := offset == len || dontblock;
        if output.Rte? {
          err, finished := output, true;
        }
      } else if err.Mem? {
        if output.Rte? {
          err, finished := output, true;
        } else if dontblock {
          err, finished := if offset == 0 then WouldBlock else Ok, true;
        }
      } else {
        finished := true;
      }
    }

    /** The loop goes round again without having changed anything: 64K, or a multiple of it, is left of
        the current vector, another vector follows, the send buffer is full and the write may block. */
    ghost predicate Stalls(dontblock: bool, a: Answer)
      reads this
      requires Valid()
    {
      && !dontblock && a.sndbuf == 0 && a.empty.Ok? && 1 < vectorCnt
      && 0 < Diff() && Diff() % M16 == 0
    }

    lemma NeverStalls(dontblock: bool, env: nat -> Answer, i: nat)
      requires Valid() && CannotStall(vectors, dontblock, env)
      ensures !Stalls(dontblock, env(i))
    {
      assert vectors[vector] in vectors;
    }

    /** What tcp_write may return in round i */
    lemma OutcomeOf(env: nat -> Answer, i: nat)
      requires Valid() && Plausible(env)
      ensures Outcome(env(i)).Ok? || Outcome(env(i)).Mem? || FailedIn(env, Outcome(env(i)))
      ensures Outcome(env(i)).Mem? ==> env(i).write.Mem? && 0 < Diff()
      ensures Outcome(env(i)).Failed? ==> Outcome(env(i)) == env(i).write || Outcome(env(i)) == env(i).empty
      ensures Accepting(env) ==> Outcome(env(i)).Ok? && 0 < env(i).sndbuf
    {
    }

    /** Everything is written exactly if no vector is left, when the last one that was taken up is not finished. */
    lemma AtTheEnd()
      requires Valid()
      ensures vectorCnt == 0 ==> offset == len
      ensures 0 < Diff() ==> offset < len
    {
      WhenDone(vectors, vector, vectorOff);
      if 0 < Diff() { BytesLeft(); }
    }

    lemma SmallBuffer(env: nat -> Answer, i: nat)
      requires Plausible(env)
      ensures env(i).sndbuf < M16
    {
    }

    /** A byte left in the current vector is a byte left of the whole. */
    lemma BytesLeft()
      requires Valid() && 0 < Diff()
      ensures offset < len
    {
      AcceptStep(vectors, vector, vectorOff, 1);
    }

    /** Once it stalls, the loop never ends while the send buffer stays full: whatever n is, each of n rounds goes
        without an error, asks for another one, and changes nothing. */
    method StallsForever(n: nat) returns (errs: seq<Err>, more: seq<bool>)
      requires Valid() && Stalls(false, FULL)
      modifies this
      ensures |errs| == |more| == n && forall i :: 0 <= i < n ==> errs[i].Ok? && more[i]
      ensures unchanged(this)
    {
      errs, more := [], [];
      for i := 0 to n
        invariant |errs| == |more| == i && forall j :: 0 <= j < i ==> errs[j].Ok? && more[j]
        invariant unchanged(this)
      {
        var err, writeMore, blocked := Round(false, FULL);
        errs, more := errs + [err], more + [writeMore];
      }
    }

    /** Something was accepted, or a vector is done with. */
    twostate predicate Progress()
      reads this
      requires old(Valid()) && Valid()
    {
      vectorCnt < old(vectorCnt) || (vectorCnt == old(vectorCnt) && Diff() < old(Diff()))
    }
  }

  /** Two vectors that stall: the first one has 64K. */
  method StallingVectors() returns (w: WriteMsg)
    ensures fresh(w) && w.Valid() && |w.vectors| == 2 && |w.vectors[0]| == M16 && |w.vectors[1]| == 1
    ensures w.offset == 0 && w.Stalls(false, FULL)
  {
    w := new WriteMsg([seq(M16, i => 0), [0]]);
    assert w.Diff() == M16;
  }

  /** The total size as netconn_write_vectors_partly adds it up in a size_t of `limit` values. */
  method TotalSize(vectors: seq<seq<byte>>, limit: nat) returns (size: Option<nat>)
    requires 0 < limit && forall v :: v in vectors ==> |v| < limit
    ensures size == if |Concat(vectors)| < limit then Some(|Concat(vectors)|) else None
  {
    hide Concat;
    var sum: nat := 0;
    NoVectors(vectors);
    for i := 0 to |vectors|
      invariant sum == |Concat(vectors[..i])| < limit
    {
      SumNext(vectors, i);
      Wraps(sum, |vectors[i]|, limit);
      sum := (sum + |vectors[i]|) % limit;
      if sum < |vectors[i]| {
        return None;
      }
    }
    assert vectors[..|vectors|] == vectors;
    size := Some(sum);
  }

  /** An unsigned sum is below its summand exactly if it wrapped around. */
  lemma Wraps(a: nat, b: nat, limit: nat)
    requires a < limit && b < limit
    ensures (a + b) % limit == if a + b < limit then a + b else a + b - limit
  {
    if a + b >= limit {
      assert a + b == limit + (a + b - limit);
      ModOnce(a + b - limit, limit);
    } else {
      SmallMod(a + b, limit);
    }
  }

  lemma ModOnce(x: nat, limit: nat)
    requires x < limit
    ensures (limit + x) % limit == x
  {
    DivUnique(limit + x, limit, 1, x);
  }

  lemma NoVectors(s: seq<seq<byte>>)
    ensures |Concat(s[..0])| == 0 && (s != [] ==> s[0] in s)
  {
  }

  lemma SumNext(s: seq<seq<byte>>, i: nat)
    requires i < |s|
    ensures s[i] in s && |Concat(s[..i + 1])| == |Concat(s[..i])| + |s[i]| <= |Concat(s)|
  {
    ConcatAt(s, i);
  }

  /** Everything is written when the last vector is; before that, not if it is not empty. */
  lemma WhenDone(s: seq<seq<byte>>, i: nat, o: nat)
    requires i < |s| && o <= |s[i]|
    ensures i == |s| - 1 && o == |s[i]| ==> Position(s, i, o) == |Concat(s)|
    ensures s[|s| - 1] != [] && (i < |s| - 1 || o < |s[i]|) ==> Position(s, i, o) < |Concat(s)|
  {
    ConcatAt(s, i);
    ConcatAt(s, |s| - 1);
    if i < |s| - 1 {
      var rest := s[i + 1..];
      assert rest[|rest| - 1] == s[|s| - 1];
      ConcatAt(rest, |rest| - 1);
    }
  }

  /** With vectors below 64K, or without successful writes into a full send buffer, no round stalls. */
  ghost predicate CannotStall(vectors: seq<seq<byte>>, dontblock: bool, env: nat -> Answer) {
    dontblock || (forall v :: v in vectors ==> |v| < M16) || (forall i :: env(i).sndbuf == 0 ==> !env(i).empty.Ok?)
  }

  lemma GrowsTo(a: seq<byte>, b: seq<byte>, whole: seq<byte>, i: nat, j: nat)
    requires i <= j <= |whole| && a == whole[..i] && b == whole[..j]
    ensures a <= b
  {
  }

  lemma AcceptStep(s: seq<seq<byte>>, i: nat, o: nat, n: nat)
    requires i < |s| && o + n <= |s[i]|
    ensures Position(s, i, o) + n <= |Concat(s)|
    ensures Concat(s)[..Position(s, i, o)] + s[i][o..o + n] == Concat(s)[..Position(s, i, o) + n]
    ensures Position(s, i, o + n) == Position(s, i, o) + n
  {
    hide Concat;
    ConcatAt(s, i);
    Cut(Concat(s[..i]), s[i], Concat(s[i + 1..]), o, n);
  }

  lemma Cut(a: seq<byte>, x: seq<byte>, b: seq<byte>, o: nat, n: nat)
    requires o + n <= |x|
    ensures (a + x + b)[..|a| + o] + x[o..o + n] == (a + x + b)[..|a| + o + n]
  {
  }
}
