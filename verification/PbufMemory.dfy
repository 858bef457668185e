/** Reading and writing the bytes of packet-buffer chains, however they are segmented. */
module PbufMemory {
  import opened PbufChain
  import opened Prelude

  lemma HeadTotal(m: seq<Pbuf>, p: Option<nat>, c: seq<nat>)
    requires Sized(m, p, c) && c != []
    ensures m[c[0]].totLen == |Flat(m, c)|
  {
    assert TotalAt(m, c, 0) && c[0..] == c;
  }

  // ---------- Writing ----------

  /** m is m0 with the bytes written at position k of the chain, and nothing else changed. */
  ghost predicate Wrote(m0: seq<Pbuf>, m: seq<Pbuf>, p: Option<nat>, c: seq<nat>, k: nat, bytes: seq<byte>) {
    && Sized(m0, p, c) && Sized(m, p, c) && SameShape(m0, m)
    && k + |bytes| <= |Flat(m0, c)| && Flat(m, c) == Splice(Flat(m0, c), k, bytes)
    && forall q :: 0 <= q < |m| && q !in c ==> m[q] == m0[q]
  }

  lemma NothingWritten(m: seq<Pbuf>, p: Option<nat>, c: seq<nat>, k: nat)
    requires Sized(m, p, c) && k <= |Flat(m, c)|
    ensures Wrote(m, m, p, c, k, [])
  {
  }

  lemma WriteStep(m0: seq<Pbuf>, m: seq<Pbuf>, p: Option<nat>, c: seq<nat>, k: nat, done: seq<byte>, i: nat, o: nat, chunk: seq<byte>)
    requires Wrote(m0, m, p, c, k, done) && i < |c| && o + |chunk| <= |m0[c[i]].data|
    requires Position(Pieces(m0, c), i, o) == k + |done|
    ensures o + |chunk| <= |m[c[i]].data|
    ensures Wrote(m0, Poked(m, c[i], o, chunk), p, c, k, done + chunk)
  {
    var m' := Poked(m, c[i], o, chunk);
    assert SameButBytes(m0[c[i]], m[c[i]]);
    SamePositions(Pieces(m0, c), Pieces(m, c), i, o);
    PokedFlat(m, p, c, i, o, chunk);
    SameShapePacket(m, m', p, c);
    SpliceNext(Flat(m0, c), k, done, chunk);
    StillSameShape(m0, m, m');
    hide Flat, SameShape;
  }

  /** Writing on where the last write ended writes it all. */
  lemma WroteMore(m0: seq<Pbuf>, m1: seq<Pbuf>, m2: seq<Pbuf>, p: Option<nat>, c: seq<nat>, k: nat, a: seq<byte>, b: seq<byte>)
    requires Wrote(m0, m1, p, c, k, a) && Wrote(m1, m2, p, c, k + |a|, b)
    ensures Wrote(m0, m2, p, c, k, a + b)
  {
    StillSameShape(m0, m1, m2);
    SpliceNext(Flat(m0, c), k, a, b);
    hide SameShape, Sized;
  }

  lemma StillSameShape(m0: seq<Pbuf>, m: seq<Pbuf>, m': seq<Pbuf>)
    requires SameShape(m0, m) && SameShape(m, m')
    ensures SameShape(m0, m')
  {
    forall i | 0 <= i < |m| ensures SameButBytes(m0[i], m'[i]) {
      assert SameButBytes(m0[i], m[i]) && SameButBytes(m[i], m'[i]);
    }
  }

  // ---------- The operations ----------

  /** The buffers of memory; pointers are indices. */
  class Memory {
    var mem: seq<Pbuf>

    constructor (size: nat)
      ensures |mem| == size && forall i :: 0 <= i < size ==> !mem[i].live
    {
      mem := seq(size, _ => Pbuf(false, None, [], 0, 0));
    }

    /** MEMCPY into the payload of one buffer */
    method Poke(q: nat, o: nat, bytes: seq<byte>)
      requires q < |mem| && o + |bytes| <= |mem[q].data|
      modifies this
      ensures mem == Poked(old(mem), q, o, bytes)
    {
      mem := Poked(mem, q, o, bytes);
    }

    /** pbuf_skip: the buffer that holds the byte at an offset, and where in it. */
    method Skip(p: Option<nat>, offset: nat, ghost c: seq<nat>) returns (q: Option<nat>, left: nat, ghost i: nat)
      requires Sized(mem, p, c)
      ensures i <= |c| && q == At(c, i)
      ensures Position(Pieces(mem, c), i, left) == offset && (q.Some? ==> left < |mem[c[i]].data|)
      ensures q.None? <==> |Flat(mem, c)| <= offset
    {
      hide Concat;
      q, left, i := p, offset, 0;
      ghost var s := Pieces(mem, c);
      assert Position(s, 0, offset) == offset by { EmptyPosition(s, offset); }
      while q.Some? && |mem[q.value].data| <= left
        invariant i <= |c| && q == At(c, i) && Position(s, i, left) == offset
        decreases |c| - i
      {
        NextPiece(s, i);
        assert Linked(mem, c, i);
        left := left - |mem[q.value].data|;
        q := mem[q.value].next;
        i := i + 1;
      }
      if q.Some? { PieceInside(s, i, left); } else { AtEnd(s); }
    }

    /** pbuf_try_get_at */
    method TryGetAt(p: Option<nat>, offset: nat, ghost c: seq<nat>) returns (r: int)
      requires Sized(mem, p, c)
      ensures r == if offset < |Flat(mem, c)| then Flat(mem, c)[offset] else -1
    {
      var q, left, i := Skip(p, offset, c);
      if q.Some? {
        PieceInside(Pieces(mem, c), i, left);
        r := mem[q.value].data[left];
      } else {
        r := -1;
      }
    }

    /** pbuf_put_at: bytes behind the end are ignored. */
    method PutAt(p: Option<nat>, offset: nat, b: byte, ghost c: seq<nat>)
      requires Sized(mem, p, c)
      modifies this
      ensures if offset < |Flat(old(mem), c)| then Wrote(old(mem), mem, p, c, offset, [b])
              else mem == old(mem)
    {
      ghost var m0 := mem;
      var q, left, i := Skip(p, offset, c);
      hide Wrote, Flat, Position;
      if q.Some? {
        Poke(q.value, left, [b]);
        NothingWritten(m0, p, c, offset);
        WriteStep(m0, m0, p, c, offset, [], i, left, [b]);
        assert [] + [b] == [b];
      }
    }

    /** pbuf_take */
    method Take(p: Option<nat>, bytes: seq<byte>, ghost c: seq<nat>) returns (err: Err)
      requires Sized(mem, p, c)
      modifies this
      ensures err.Ok? <==> p.Some? && |bytes| <= |Flat(old(mem), c)|
      ensures if err.Ok? then Wrote(old(mem), mem, p, c, 0, bytes) else mem == old(mem)
    {
      if p.None? {
        return Arg;
      }
      HeadTotal(mem, p, c);
      if mem[p.value].totLen < |bytes| {
        return Mem;
      }
      TakeAll(p, bytes, c);
      err := Ok;
    }

    /** The loop of pbuf_take */
    method TakeAll(p: Option<nat>, bytes: seq<byte>, ghost c: seq<nat>)
      requires Sized(mem, p, c) && |bytes| <= |Flat(mem, c)|
      modifies this
      ensures Wrote(old(mem), mem, p, c, 0, bytes)
    {
      hide Taking, Wrote, Sized, Flat, Poked, At;
      ghost var m0 := mem;
      var q, copied: nat := p, 0;
      ghost var i: nat := 0;
      TakeStart(m0, p, c, bytes);
      while copied < |bytes|
        invariant Taking(m0, mem, p, c, bytes, i, copied) && q == At(c, i)
        decreases |c| - i
      {
        TakeInside(m0, mem, p, c, bytes, i, copied);
        var next := mem[q.value].next;
        var n: nat := Min(|bytes| - copied, |mem[q.value].data|);
        TakeStep(m0, mem, p, c, bytes, i, copied, n);
        Poke(q.value, 0, bytes[copied..copied + n]);
        q, copied := next, copied + n;
        i := i + 1;
      }
      TakeEnd(m0, mem, p, c, bytes, i, copied);
    }

    /** pbuf_take_at */
    method TakeAt(p: Option<nat>, bytes: seq<byte>, offset: nat, ghost c: seq<nat>) returns (err: Err)
      requires Sized(mem, p, c)
      modifies this
      ensures err.Ok? <==> offset < |Flat(old(mem), c)| && offset + |bytes| <= |Flat(old(mem), c)|
      ensures if err.Ok? then Wrote(old(mem), mem, p, c, offset, bytes) else mem == old(mem)
    {
      ghost var m0 := mem;
      var q, left, i := Skip(p, offset, c);
      hide Sized, Wrote;
      if q.None? {
        return Mem;
      }
      SuffixTotal(m0, p, c, i, left);
      if mem[q.value].totLen < left + |bytes| {
        return Mem;
      }
      var next := mem[q.value].next;
      var first: nat := Min(|mem[q.value].data| - left, |bytes|);
      FirstWrite(m0, p, c, i, left, bytes[..first]);
      Poke(q.value, left, bytes[..first]);
      err := Ok;
      if first < |bytes| {
        ghost var m1 := mem;
        RestOfChain(m0, m1, p, c, i, left, bytes, first);
        err := Take(next, bytes[first..], c[i + 1..]);
        NextPiece(Pieces(m0, c), i);
        TailWrite(m0, m1, mem, p, c, i, offset, bytes, first);
      } else {
        assert bytes[..first] == bytes;
      }
    }

    /** pbuf_copy_partial */
    method CopyPartial(p: Option<nat>, dataptr: array<byte>, len: nat, offset: nat, ghost c: seq<nat>) returns (copied: nat)
      requires Sized(mem, p, c) && len <= dataptr.Length
      modifies dataptr
      ensures copied == Available(Flat(mem, c), len, offset)
      ensures Received(old(dataptr[..]), dataptr[..], Flat(mem, c), offset, copied)
    {
      hide Concat, Position, Received, Splice, Reading;
      var q, len: nat, offset: nat := p, len, offset;
      ghost var len0, offset0, s := len, offset, Pieces(mem, c);
      ghost var i: nat, d0 := 0, dataptr[..];
      copied := 0;
      ReadStart(s, offset, len);
      ReceiveStart(dataptr[..], Concat(s), offset);
      assert p == At(c, 0);
      hide Sized;
      while len != 0 && q.Some?
        invariant i <= |c| && q == At(c, i) && Reading(s, i, offset, offset0, len, len0, copied)
        invariant Received(d0, dataptr[..], Concat(s), offset0, copied)
        decreases |c| - i
      {
        ChainLink(mem, p, c, i);
        if offset != 0 && offset >= |mem[q.value].data| {
          ReadSkip(s, i, offset, offset0, len, len0, copied);
          offset := offset - |mem[q.value].data|;
        } else {
          var n: nat := Min(|mem[q.value].data| - offset, len);
          ReadStep(s, i, offset, offset0, len, len0, copied, n);
          var chunk := mem[q.value].data[offset..offset + n];
          ReceiveStep(d0, dataptr[..], Concat(s), offset0, copied, chunk);
          Memcpy(dataptr, copied, chunk);
          copied, len, offset := copied + n, len - n, 0;
        }
        q := mem[q.value].next;
        i := i + 1;
      }
      ReadEnd(s, i, offset, offset0, len, len0, copied);
    }

    /** pbuf_copy_partial_pbuf: the first copyLen bytes of one chain, written into another at an
        offset inside its first buffer. The checks inside the loop never fail. */
    method CopyPartialPbuf(to: Option<nat>, from: Option<nat>, copyLen: nat, offset: nat, ghost ct: seq<nat>, ghost cf: seq<nat>)
      returns (err: Err)
      requires Sized(mem, to, ct) && Sized(mem, from, cf) && Apart(ct, cf) && NoEmpty(mem, ct) && NoEmpty(mem, cf)
      requires ct != [] ==> offset <= |mem[ct[0]].data|
      modifies this
      ensures err.Ok? <==> to.Some? && from.Some? && copyLen <= |Flat(old(mem), cf)| && offset + copyLen <= |Flat(old(mem), ct)|
      ensures if err.Ok? then Wrote(old(mem), mem, to, ct, offset, Flat(old(mem), cf)[..copyLen]) else mem == old(mem)
    {
      if from.None? {
        return Arg;
      }
      HeadTotal(mem, from, cf);
      if mem[from.value].totLen < copyLen || to.None? {
        return Arg;
      }
      HeadTotal(mem, to, ct);
      if mem[to.value].totLen < offset + copyLen {
        return Arg;
      }
      CopyAll(to, from, copyLen, offset, ct, cf);
      err := Ok;
    }

    /** One part of the copy: up to the end of one of the buffers, or of the copy. */
    method CopyPart(to: nat, offsetTo: nat, from: nat, offsetFrom: nat, copyLen: nat) returns (len: nat)
      requires to < |mem| && from < |mem| && offsetTo <= |mem[to].data| && offsetFrom <= |mem[from].data|
      modifies this
      ensures len == Min(copyLen, Min(|old(mem)[to].data| - offsetTo, |old(mem)[from].data| - offsetFrom))
      ensures mem == Poked(old(mem), to, offsetTo, old(mem)[from].data[offsetFrom..offsetFrom + len])
    {
      if |mem[to].data| - offsetTo >= |mem[from].data| - offsetFrom {
        // the rest of the source buffer fits into the target buffer
        len := |mem[from].data| - offsetFrom;
      } else {
        len := |mem[to].data| - offsetTo;
      }
      len := Min(copyLen, len);
      Poke(to, offsetTo, mem[from].data[offsetFrom..offsetFrom + len]);
    }

    /** The loop of pbuf_copy_partial_pbuf */
    method CopyAll(to: Option<nat>, from: Option<nat>, copyLen: nat, offset: nat, ghost ct: seq<nat>, ghost cf: seq<nat>)
      requires Sized(mem, to, ct) && Sized(mem, from, cf) && Apart(ct, cf) && NoEmpty(mem, ct) && NoEmpty(mem, cf)
      requires ct != [] && cf != [] && offset <= |mem[ct[0]].data|
      requires copyLen <= |Flat(mem, cf)| && offset + copyLen <= |Flat(mem, ct)|
      modifies this
      ensures Wrote(old(mem), mem, to, ct, offset, Flat(old(mem), cf)[..copyLen])
    {
      hide Copying, Wrote, Sized, NoEmpty, Flat, Poked, Apart, Advanced, At, OnlyPacket;
      ghost var m0, total := mem, copyLen;
      var pTo, pFrom, offsetTo: nat, offsetFrom: nat, copyLen: nat := to, from, offset, 0, copyLen;
      ghost var n: nat, at := 0, Place(0, 0, 0, offset);
      CopyStart(m0, to, from, ct, cf, offset, copyLen);
      while true
        invariant n + copyLen == total && pTo == At(ct, at.j) && pFrom == At(cf, at.i)
        invariant at.from == offsetFrom && at.to == offsetTo
        invariant n < total || (at.i < |cf| && at.j < |ct|)
        invariant Copying(m0, mem, to, from, ct, cf, offset, total, at, n)
        decreases |ct| - at.j + |cf| - at.i
      {
        ghost var m := mem;
        CopyInside(m0, m, to, from, ct, cf, offset, total, at, n);
        var len := CopyPart(pTo.value, offsetTo, pFrom.value, offsetFrom, copyLen);
        ghost var next := Advanced(m, ct, cf, at, len);
        CopyAdvances(m0, m, to, from, ct, cf, offset, total, at, n, len);
        offsetTo, offsetFrom, copyLen := offsetTo + len, offsetFrom + len, copyLen - len;
        if offsetFrom >= |mem[pFrom.value].data| {
          // on to next pFrom (if any)
          offsetFrom, pFrom := 0, mem[pFrom.value].next;
          assert pFrom.Some? || copyLen == 0;
        }
        if offsetTo == |mem[pTo.value].data| {
          // on to next pTo (if any)
          offsetTo, pTo := 0, mem[pTo.value].next;
          assert pTo.Some? || copyLen == 0;
        }
        // not more than one packet is copied
        assert OnlyPacket(mem, pFrom) && OnlyPacket(mem, pTo);
        at, n := next, n + len;
        if copyLen == 0 {
          CopyEnd(m0, mem, to, from, ct, cf, offset, total, at, n);
          return;
        }
      }
    }

    /** pbuf_get_at: zero behind the end. */
    method GetAt(p: Option<nat>, offset: nat, ghost c: seq<nat>) returns (r: byte)
      requires Sized(mem, p, c)
      ensures r == if offset < |Flat(mem, c)| then Flat(mem, c)[offset] else 0
    {
      var b := TryGetAt(p, offset, c);
      r := if b >= 0 then b else 0;
    }

    /** pbuf_memcmp: 0 if the bytes are in the chain at an offset, 0xffff if the chain is too short,
        otherwise one more than the index of the first difference. */
    method Memcmp(p: Option<nat>, offset: nat, bytes: seq<byte>, ghost c: seq<nat>) returns (r: nat)
      requires Sized(mem, p, c) && p.Some? && |bytes| < M16
      ensures r == 0 <==> MatchesAt(Flat(mem, c), offset, bytes)
      ensures |Flat(mem, c)| < offset + |bytes| ==> r == 0xFFFF
      ensures offset + |bytes| <= |Flat(mem, c)| && 0 < r ==> FirstDifference(Flat(mem, c), offset, bytes, r - 1)
    {
      hide Flat, Concat, FirstDifference;
      HeadTotal(mem, p, c);
      if mem[p.value].totLen < offset + |bytes| {
        return 0xFFFF;
      }
      hide Sized;
      var q, start, k := Skip(p, offset, c);
      Suffix(mem, p, c, k);
      Shifted(Concat(Pieces(mem, c)[..k]), Flat(mem, c[k..]), start, bytes);
      r := Compare(q, start, bytes, c[k..]);
    }

    /** The loop of pbuf_memcmp */
    method Compare(q: Option<nat>, start: nat, bytes: seq<byte>, ghost c: seq<nat>) returns (r: nat)
      requires Sized(mem, q, c) && |bytes| < M16 && start + |bytes| <= |Flat(mem, c)|
      ensures r == 0 ==> MatchesAt(Flat(mem, c), start, bytes)
      ensures 0 < r ==> FirstDifference(Flat(mem, c), start, bytes, r - 1)
    {
      ghost var flat := Flat(mem, c);
      hide Sized, Flat;
      for i := 0 to |bytes|
        invariant flat[start..start + i] == bytes[..i]
      {
        var a := GetAt(q, start + i, c);
        if a != bytes[i] {
          return Min(i + 1, 0xFFFF);
        }
        assert flat[start..start + i + 1] == flat[start..start + i] + [a] && bytes[..i + 1] == bytes[..i] + [a];
      }
      assert bytes[..|bytes|] == bytes;
      return 0;
    }

    /** pbuf_memfind: the least index from `start` on where the bytes are, or 0xffff. */
    method Memfind(p: Option<nat>, bytes: seq<byte>, start: nat, ghost c: seq<nat>) returns (r: nat)
      requires Sized(mem, p, c) && p.Some? && |bytes| < M16
      ensures (forall k :: start <= k ==> !MatchesAt(Flat(mem, c), k, bytes)) ==> r == 0xFFFF
      ensures forall k :: start <= k && MatchesAt(Flat(mem, c), k, bytes) ==>
        start <= r <= k && MatchesAt(Flat(mem, c), r, bytes)
    {
      HeadTotal(mem, p, c);
      var maxCmpStart := (mem[p.value].totLen - |bytes|) % M16;
      if mem[p.value].totLen >= |bytes| + start {
        var i := start;
        while i <= maxCmpStart
          invariant start <= i && forall k :: start <= k < i ==> !MatchesAt(Flat(mem, c), k, bytes)
        {
          var plus := Memcmp(p, i, bytes, c);
          if plus == 0 {
            return i;
          }
          i := i + 1;
        }
      }
      return 0xFFFF;
    }
  }

  ghost predicate MatchesAt(flat: seq<byte>, k: nat, bytes: seq<byte>) {
    k + |bytes| <= |flat| && flat[k..k + |bytes|] == bytes
  }

  ghost predicate FirstDifference(flat: seq<byte>, k: nat, bytes: seq<byte>, i: nat)
    requires k + |bytes| <= |flat|
  {
    i < |bytes| && flat[k..k + i] == bytes[..i] && flat[k + i] != bytes[i]
  }

  lemma Shifted(head: seq<byte>, tail: seq<byte>, k: nat, bytes: seq<byte>)
    requires k + |bytes| <= |tail|
    ensures MatchesAt(head + tail, |head| + k, bytes) <==> MatchesAt(tail, k, bytes)
    ensures forall i: nat :: FirstDifference(tail, k, bytes, i) ==> FirstDifference(head + tail, |head| + k, bytes, i)
    ensures forall i: nat :: FirstDifference(tail, k, bytes, i) ==> !MatchesAt(tail, k, bytes)
  {
    assert (head + tail)[|head| + k..|head| + k + |bytes|] == tail[k..k + |bytes|];
    forall i: nat | FirstDifference(tail, k, bytes, i) ensures FirstDifference(head + tail, |head| + k, bytes, i) {
      assert (head + tail)[|head| + k..|head| + k + i] == tail[k..k + i];
    }
    forall i: nat | FirstDifference(tail, k, bytes, i) ensures !MatchesAt(tail, k, bytes) {
      assert tail[k..k + |bytes|][i] != bytes[i];
    }
  }

  lemma Suffix(m: seq<Pbuf>, p: Option<nat>, c: seq<nat>, k: nat)
    requires Sized(m, p, c) && k <= |c|
    ensures Sized(m, At(c, k), c[k..]) && Flat(m, c) == Concat(Pieces(m, c)[..k]) + Flat(m, c[k..])
  {
    SplitFlat(m, c, k);
    if k < |c| { ChainTail(m, p, c, k); }
  }

  /** How many of len bytes there are from an offset on. */
  function Available(flat: seq<byte>, len: nat, offset: nat): nat {
    if offset <= |flat| then Min(len, |flat| - offset) else 0
  }

  /** The buffer d0 with `copied` bytes from an offset of the chain at its start. */
  ghost predicate Received(d0: seq<byte>, d: seq<byte>, flat: seq<byte>, offset: nat, copied: nat) {
    && copied <= |d0| && (0 < copied ==> offset + copied <= |flat|)
    && d == Splice(d0, 0, if copied == 0 then [] else flat[offset..offset + copied])
  }

  lemma ReceiveStart(d: seq<byte>, flat: seq<byte>, offset: nat)
    ensures Received(d, d, flat, offset, 0)
  {
  }

  lemma ReceiveStep(d0: seq<byte>, d: seq<byte>, flat: seq<byte>, offset: nat, copied: nat, chunk: seq<byte>)
    requires Received(d0, d, flat, offset, copied) && copied + |chunk| <= |d0| == |d|
    requires offset + copied + |chunk| <= |flat| && chunk == flat[offset + copied..offset + copied + |chunk|]
    ensures Received(d0, Splice(d, copied, chunk), flat, offset, copied + |chunk|)
  {
    var got := if copied == 0 then [] else flat[offset..offset + copied];
    SpliceNext(d0, 0, got, chunk);
    assert got + chunk == flat[offset..offset + copied + |chunk|];
  }

  /** Everything before the flat position offset0 + copied is dealt with; the loop stands at piece i. */
  ghost predicate Reading(s: seq<seq<byte>>, i: nat, offset: nat, offset0: nat, len: nat, len0: nat, copied: nat) {
    && i <= |s| && copied + len == len0 && (0 < copied ==> offset == 0 && offset0 + copied <= |Concat(s)|)
    && (len != 0 ==> Position(s, i, offset) == offset0 + copied)
  }

  /** The bytes before `copied` are written; the next one is the first of buffer i. */
  ghost predicate Taking(m0: seq<Pbuf>, m: seq<Pbuf>, p: Option<nat>, c: seq<nat>, bytes: seq<byte>, i: nat, copied: nat) {
    && copied <= |bytes| && i <= |c| && Wrote(m0, m, p, c, 0, bytes[..copied]) && |bytes| <= |Flat(m0, c)|
    && (copied < |bytes| ==> Position(Pieces(m0, c), i, 0) == copied)
  }

  lemma TakeStart(m: seq<Pbuf>, p: Option<nat>, c: seq<nat>, bytes: seq<byte>)
    requires Sized(m, p, c) && |bytes| <= |Flat(m, c)|
    ensures p == At(c, 0) && Taking(m, m, p, c, bytes, 0, 0)
  {
    EmptyPosition(Pieces(m, c), 0);
  }

  lemma TakeInside(m0: seq<Pbuf>, m: seq<Pbuf>, p: Option<nat>, c: seq<nat>, bytes: seq<byte>, i: nat, copied: nat)
    requires copied < |bytes| && Taking(m0, m, p, c, bytes, i, copied)
    ensures |m| == |m0| && i < |c| && At(c, i) == Some(c[i]) && c[i] < |m| && m[c[i]].next == At(c, i + 1) && |m[c[i]].data| == |m0[c[i]].data|
  {
    AtEnd(Pieces(m0, c));
    assert SameButBytes(m0[c[i]], m[c[i]]) && Linked(m, c, i);
  }

  lemma TakeStep(m0: seq<Pbuf>, m: seq<Pbuf>, p: Option<nat>, c: seq<nat>, bytes: seq<byte>, i: nat, copied: nat, n: nat)
    requires copied < |bytes| && Taking(m0, m, p, c, bytes, i, copied) && i < |c| && |m0| == |m| && c[i] < |m|
    requires n == Min(|bytes| - copied, |m[c[i]].data|) && |m[c[i]].data| == |m0[c[i]].data|
    ensures Taking(m0, Poked(m, c[i], 0, bytes[copied..copied + n]), p, c, bytes, i + 1, copied + n)
  {
    assert forall j :: 0 <= j < |c| ==> c[j] < |m0|;
    AtEnd(Pieces(m0, c));
    hide Wrote;
    WriteStep(m0, m, p, c, 0, bytes[..copied], i, 0, bytes[copied..copied + n]);
    assert bytes[..copied] + bytes[copied..copied + n] == bytes[..copied + n];
    NextPosition(Pieces(m0, c), i);
  }

  lemma TakeEnd(m0: seq<Pbuf>, m: seq<Pbuf>, p: Option<nat>, c: seq<nat>, bytes: seq<byte>, i: nat, copied: nat)
    requires |bytes| <= copied && Taking(m0, m, p, c, bytes, i, copied)
    ensures Wrote(m0, m, p, c, 0, bytes)
  {
    assert bytes[..copied] == bytes;
  }

  lemma NextPosition(s: seq<seq<byte>>, i: nat)
    requires i < |s|
    ensures Position(s, i + 1, 0) == Position(s, i, 0) + |s[i]|
  {
    NextPiece(s, i);
  }

  lemma ChainLink(m: seq<Pbuf>, p: Option<nat>, c: seq<nat>, i: nat)
    requires Sized(m, p, c) && i < |c|
    ensures c[i] < |m| && m[c[i]].next == At(c, i + 1)
  {
    assert Linked(m, c, i);
  }

  lemma ReadStart(s: seq<seq<byte>>, offset: nat, len: nat)
    ensures Reading(s, 0, offset, offset, len, len, 0)
  {
    EmptyPosition(s, offset);
  }

  lemma ReadSkip(s: seq<seq<byte>>, i: nat, offset: nat, offset0: nat, len: nat, len0: nat, copied: nat)
    requires Reading(s, i, offset, offset0, len, len0, copied) && i < |s| && 0 < offset && |s[i]| <= offset
    ensures Reading(s, i + 1, offset - |s[i]|, offset0, len, len0, copied)
  {
    NextPiece(s, i);
  }

  lemma ReadStep(s: seq<seq<byte>>, i: nat, offset: nat, offset0: nat, len: nat, len0: nat, copied: nat, n: nat)
    requires Reading(s, i, offset, offset0, len, len0, copied) && 0 < len && i < |s| && (offset == 0 || offset < |s[i]|)
    requires n == Min(|s[i]| - offset, len)
    ensures Reading(s, i + 1, 0, offset0, len - n, len0, copied + n)
    ensures offset0 + copied + n <= |Concat(s)|
    ensures s[i][offset..offset + n] == Concat(s)[offset0 + copied..offset0 + copied + n]
  {
    ReadPiece(s, i, offset, n);
    NextPiece(s, i);
  }

  lemma ReadEnd(s: seq<seq<byte>>, i: nat, offset: nat, offset0: nat, len: nat, len0: nat, copied: nat)
    requires Reading(s, i, offset, offset0, len, len0, copied) && (len == 0 || i == |s|)
    ensures copied == Available(Concat(s), len0, offset0)
  {
    AtEnd(s);
  }

  lemma SuffixTotal(m: seq<Pbuf>, p: Option<nat>, c: seq<nat>, i: nat, left: nat)
    requires Sized(m, p, c) && i < |c|
    ensures c[i] < |m| && m[c[i]].next == At(c, i + 1)
    ensures m[c[i]].totLen + Position(Pieces(m, c), i, left) == |Flat(m, c)| + left
  {
    assert Linked(m, c, i) && TotalAt(m, c, i);
    FlatTail(m, c, i);
  }

  lemma FirstWrite(m: seq<Pbuf>, p: Option<nat>, c: seq<nat>, i: nat, o: nat, bytes: seq<byte>)
    requires Sized(m, p, c) && i < |c| && o + |bytes| <= |m[c[i]].data|
    ensures Wrote(m, Poked(m, c[i], o, bytes), p, c, Position(Pieces(m, c), i, o), bytes)
  {
    var k := Position(Pieces(m, c), i, o);
    PokedFlat(m, p, c, i, o, bytes);
    NothingWritten(m, p, c, k);
    WriteStep(m, m, p, c, k, [], i, o, bytes);
    assert [] + bytes == bytes;
  }

  /** What is left to write goes to the start of the rest of the chain. */
  lemma RestOfChain(m0: seq<Pbuf>, m1: seq<Pbuf>, p: Option<nat>, c: seq<nat>, i: nat, left: nat, bytes: seq<byte>, first: nat)
    requires Sized(m0, p, c) && Sized(m1, p, c) && SameShape(m0, m1) && i < |c|
    requires (forall j :: 0 <= j < |c| ==> c[j] < |m0|) && left < |m0[c[i]].data| && first == |m0[c[i]].data| - left < |bytes|
    requires Position(Pieces(m0, c), i, left) + |bytes| <= |Flat(m0, c)|
    ensures Sized(m1, m0[c[i]].next, c[i + 1..]) && |bytes| - first <= |Flat(m1, c[i + 1..])| && m0[c[i]].next.Some?
  {
    ChainTail(m1, p, c, i);
    FlatTail(m1, c, i);
    SameShapePacket(m0, m1, p, c);
    SamePositions(Pieces(m0, c), Pieces(m1, c), i, left);
    assert Linked(m0, c, i) && SameButBytes(m0[c[i]], m1[c[i]]);
  }

  /** Writing the start into one buffer and the rest into the buffers behind it writes it all. */
  lemma TailWrite(m0: seq<Pbuf>, m1: seq<Pbuf>, m2: seq<Pbuf>, p: Option<nat>, c: seq<nat>, i: nat, offset: nat,
                  bytes: seq<byte>, first: nat)
    requires i < |c| && first < |bytes| && Wrote(m0, m1, p, c, offset, bytes[..first])
    requires Wrote(m1, m2, At(c, i + 1), c[i + 1..], 0, bytes[first..])
    requires Position(Pieces(m0, c), i + 1, 0) == offset + first
    ensures Wrote(m0, m2, p, c, offset, bytes)
  {
    var k := i + 1;
    SamePositions(Pieces(m0, c), Pieces(m1, c), k, 0);
    SplitFlat(m1, c, k);
    SplitFlat(m2, c, k);
    forall j | 0 <= j < k ensures m2[c[j]] == m1[c[j]] { NotBehind(c, k, j); }
    assert Pieces(m2, c)[..k] == Pieces(m1, c)[..k];
    SpliceBehind(Concat(Pieces(m1, c)[..k]), Flat(m1, c[k..]), bytes[first..]);
    SpliceNext(Flat(m0, c), offset, bytes[..first], bytes[first..]);
    assert bytes[..first] + bytes[first..] == bytes;
    forall q | 0 <= q < |m2| && q !in c ensures m2[q] == m0[q] { assert q !in c[k..]; }
    StillSameShape(m0, m1, m2);
    SameShapePacket(m0, m2, p, c);
  }

  lemma SplitFlat(m: seq<Pbuf>, c: seq<nat>, k: nat)
    requires k <= |c| && forall j :: 0 <= j < |c| ==> c[j] < |m|
    ensures Flat(m, c) == Concat(Pieces(m, c)[..k]) + Flat(m, c[k..])
  {
    assert Pieces(m, c) == Pieces(m, c)[..k] + Pieces(m, c)[k..] && Pieces(m, c)[k..] == Pieces(m, c[k..]);
    ConcatAppend(Pieces(m, c)[..k], Pieces(m, c)[k..]);
  }

  lemma NotBehind(c: seq<nat>, k: nat, j: nat)
    requires j < k <= |c| && forall a, b :: 0 <= a < b < |c| ==> c[a] != c[b]
    ensures c[j] !in c[k..]
  {
  }

  lemma SpliceBehind(head: seq<byte>, tail: seq<byte>, bytes: seq<byte>)
    requires |bytes| <= |tail|
    ensures head + Splice(tail, 0, bytes) == Splice(head + tail, |head|, bytes)
  {
  }

  // ---------- Copying between chains ----------

  ghost predicate NoEmpty(m: seq<Pbuf>, c: seq<nat>) {
    forall i :: 0 <= i < |c| ==> c[i] < |m| && m[c[i]].data != []
  }

  ghost predicate Apart(a: seq<nat>, b: seq<nat>) {
    forall i, j :: 0 <= i < |a| && 0 <= j < |b| ==> a[i] != b[j]
  }

  /** Where a copy stands: offset `from` of source buffer i, offset `to` of target buffer j. */
  datatype Place = Place(i: nat, from: nat, j: nat, to: nat)

  /** n bytes are copied, and the place is that of byte number n in both chains. */
  ghost predicate Copying(m0: seq<Pbuf>, m: seq<Pbuf>, to: Option<nat>, from: Option<nat>, ct: seq<nat>, cf: seq<nat>,
                          offset: nat, total: nat, at: Place, n: nat)
  {
    && Sized(m0, from, cf) && Sized(m, from, cf) && Apart(ct, cf) && NoEmpty(m0, ct) && NoEmpty(m0, cf)
    && n <= total <= |Flat(m0, cf)|
    && Wrote(m0, m, to, ct, offset, Flat(m0, cf)[..n]) && offset + total <= |Flat(m0, ct)|
    && at.i <= |cf| && at.j <= |ct|
    && Position(Pieces(m0, cf), at.i, at.from) == n && Position(Pieces(m0, ct), at.j, at.to) == offset + n
    && (at.i < |cf| ==> at.from < |m0[cf[at.i]].data|) && (at.j < |ct| ==> at.to <= |m0[ct[at.j]].data|)
  }

  /** The place after len more bytes: behind a full buffer the next one starts. */
  function Advanced(m: seq<Pbuf>, ct: seq<nat>, cf: seq<nat>, at: Place, len: nat): Place
    requires at.i < |cf| && cf[at.i] < |m| && at.j < |ct| && ct[at.j] < |m|
  {
    var (i, from) := if at.from + len >= |m[cf[at.i]].data| then (at.i + 1, 0) else (at.i, at.from + len);
    var (j, to) := if at.to + len == |m[ct[at.j]].data| then (at.j + 1, 0) else (at.j, at.to + len);
    Place(i, from, j, to)
  }

  lemma CopyStart(m: seq<Pbuf>, to: Option<nat>, from: Option<nat>, ct: seq<nat>, cf: seq<nat>, offset: nat, total: nat)
    requires Sized(m, to, ct) && Sized(m, from, cf) && Apart(ct, cf) && NoEmpty(m, ct) && NoEmpty(m, cf)
    requires ct != [] && cf != [] && offset <= |m[ct[0]].data|
    requires total <= |Flat(m, cf)| && offset + total <= |Flat(m, ct)|
    ensures Copying(m, m, to, from, ct, cf, offset, total, Place(0, 0, 0, offset), 0)
    ensures to == At(ct, 0) && from == At(cf, 0)
  {
    EmptyPosition(Pieces(m, cf), 0);
    EmptyPosition(Pieces(m, ct), offset);
    NothingWritten(m, to, ct, offset);
    assert Flat(m, cf)[..0] == [];
  }

  lemma CopyInside(m0: seq<Pbuf>, m: seq<Pbuf>, to: Option<nat>, from: Option<nat>, ct: seq<nat>, cf: seq<nat>,
                   offset: nat, total: nat, at: Place, n: nat)
    requires Copying(m0, m, to, from, ct, cf, offset, total, at, n) && (n < total || (at.i < |cf| && at.j < |ct|))
    ensures at.i < |cf| && At(cf, at.i) == Some(cf[at.i]) && cf[at.i] < |m| && at.from < |m[cf[at.i]].data|
    ensures at.j < |ct| && At(ct, at.j) == Some(ct[at.j]) && ct[at.j] < |m| && at.to <= |m[ct[at.j]].data|
  {
    AtEnd(Pieces(m0, cf));
    AtEnd(Pieces(m0, ct));
    assert SameButBytes(m0[cf[at.i]], m[cf[at.i]]) && SameButBytes(m0[ct[at.j]], m[ct[at.j]]);
  }

  lemma CopyEnd(m0: seq<Pbuf>, m: seq<Pbuf>, to: Option<nat>, from: Option<nat>, ct: seq<nat>, cf: seq<nat>,
                offset: nat, total: nat, at: Place, n: nat)
    requires Copying(m0, m, to, from, ct, cf, offset, total, at, n) && n == total
    ensures Wrote(m0, m, to, ct, offset, Flat(m0, cf)[..total])
  {
  }

  lemma LastOfPacket(m: seq<Pbuf>, p: Option<nat>, c: seq<nat>, i: nat)
    requires Sized(m, p, c) && NoEmpty(m, c) && i < |c|
    ensures m[c[i]].next == At(c, i + 1)
    ensures |m[c[i]].data| == m[c[i]].totLen ==> m[c[i]].next.None?
  {
    assert Linked(m, c, i) && TotalAt(m, c, i);
    FlatTail(m, c, i);
    if i + 1 < |c| { FlatTail(m, c, i + 1); }
  }

  /** The test for a queue of packets: a buffer whose len is its tot_len is the last one. */
  ghost predicate OnlyPacket(m: seq<Pbuf>, q: Option<nat>) {
    q.Some? ==> q.value < |m| && (|m[q.value].data| == m[q.value].totLen ==> m[q.value].next.None?)
  }

  lemma CopyShapes(m0: seq<Pbuf>, m: seq<Pbuf>, to: Option<nat>, from: Option<nat>, ct: seq<nat>, cf: seq<nat>,
                   offset: nat, total: nat, at: Place, n: nat)
    requires Copying(m0, m, to, from, ct, cf, offset, total, at, n)
    ensures Sized(m, from, cf) && Sized(m, to, ct) && SameShape(m0, m) && NoEmpty(m0, ct) && NoEmpty(m0, cf)
    ensures at.i <= |cf| && at.j <= |ct|
  {
    hide Sized, Flat, Concat, NoEmpty, SameShape;
  }

  lemma CopyChecks(m0: seq<Pbuf>, m: seq<Pbuf>, to: Option<nat>, from: Option<nat>, ct: seq<nat>, cf: seq<nat>,
                   offset: nat, total: nat, at: Place, n: nat)
    requires Copying(m0, m, to, from, ct, cf, offset, total, at, n)
    ensures n < total ==> At(cf, at.i).Some? && At(ct, at.j).Some?
    ensures OnlyPacket(m, At(cf, at.i)) && OnlyPacket(m, At(ct, at.j))
  {
    hide Flat, Position, Concat, Wrote, Poked;
    CopyShapes(m0, m, to, from, ct, cf, offset, total, at, n);
    hide Copying;
    if n < total { CopyInside(m0, m, to, from, ct, cf, offset, total, at, n); }
    SameNoEmpty(m0, m, cf);
    SameNoEmpty(m0, m, ct);
    hide NoEmpty, SameShape;
    if at.i < |cf| { LastOfPacket(m, from, cf, at.i); }
    if at.j < |ct| { LastOfPacket(m, to, ct, at.j); }
  }

  /** All that one round of the copy does. */
  lemma CopyAdvances(m0: seq<Pbuf>, m: seq<Pbuf>, to: Option<nat>, from: Option<nat>, ct: seq<nat>, cf: seq<nat>,
                     offset: nat, total: nat, at: Place, n: nat, len: nat)
    requires Copying(m0, m, to, from, ct, cf, offset, total, at, n)
    requires at.i < |cf| && cf[at.i] < |m| && at.from < |m[cf[at.i]].data|
    requires at.j < |ct| && ct[at.j] < |m| && at.to <= |m[ct[at.j]].data|
    requires n <= total && len == Min(total - n, Min(|m[ct[at.j]].data| - at.to, |m[cf[at.i]].data| - at.from))
    ensures var m' := Poked(m, ct[at.j], at.to, m[cf[at.i]].data[at.from..at.from + len]);
      var at' := Advanced(m, ct, cf, at, len);
      && Copying(m0, m', to, from, ct, cf, offset, total, at', n + len)
      && |m'| == |m| && OnlyPacket(m', At(cf, at'.i)) && OnlyPacket(m', At(ct, at'.j))
      && (if at.from + len >= |m'[cf[at.i]].data| then at'.from == 0 && At(cf, at'.i) == m'[cf[at.i]].next
          else at'.from == at.from + len && at'.i == at.i)
      && (if at.to + len == |m'[ct[at.j]].data| then at'.to == 0 && At(ct, at'.j) == m'[ct[at.j]].next
          else at'.to == at.to + len && at'.j == at.j)
      && (n + len < total ==> At(cf, at'.i).Some? && At(ct, at'.j).Some? && at.i + at.j < at'.i + at'.j)
  {
    CopyStep(m0, m, to, from, ct, cf, offset, total, at, n, len);
    var m' := Poked(m, ct[at.j], at.to, m[cf[at.i]].data[at.from..at.from + len]);
    CopyChecks(m0, m', to, from, ct, cf, offset, total, Advanced(m, ct, cf, at, len), n + len);
    hide Copying, OnlyPacket;
  }

  lemma SameNoEmpty(m0: seq<Pbuf>, m: seq<Pbuf>, c: seq<nat>)
    requires SameShape(m0, m) && NoEmpty(m0, c)
    ensures NoEmpty(m, c)
  {
    forall i | 0 <= i < |c| ensures m[c[i]].data != [] { assert SameButBytes(m0[c[i]], m[c[i]]); }
  }

  /** Copying the bytes up to the end of a buffer, or up to copy_len. */
  lemma CopyStep(m0: seq<Pbuf>, m: seq<Pbuf>, to: Option<nat>, from: Option<nat>, ct: seq<nat>, cf: seq<nat>,
                 offset: nat, total: nat, at: Place, n: nat, len: nat)
    requires Copying(m0, m, to, from, ct, cf, offset, total, at, n)
    requires at.i < |cf| && cf[at.i] < |m| && at.from + len <= |m[cf[at.i]].data|
    requires at.j < |ct| && ct[at.j] < |m| && at.to + len <= |m[ct[at.j]].data|
    requires n + len <= total
    ensures var m' := Poked(m, ct[at.j], at.to, m[cf[at.i]].data[at.from..at.from + len]);
      && Copying(m0, m', to, from, ct, cf, offset, total, Advanced(m, ct, cf, at, len), n + len)
      && m'[cf[at.i]] == m[cf[at.i]] && m[cf[at.i]].next == At(cf, at.i + 1)
      && |m'[ct[at.j]].data| == |m[ct[at.j]].data| && m'[ct[at.j]].next == At(ct, at.j + 1)
  {
    var chunk := m[cf[at.i]].data[at.from..at.from + len];
    var m' := Poked(m, ct[at.j], at.to, chunk);
    CopyWrites(m0, m, to, from, ct, cf, offset, total, at, n, len);
    CopyLinks(m0, m, to, from, ct, cf, offset, Flat(m0, cf)[..n], at);
    AdvancedPlace(m0, m, ct, cf, offset, at, n, len);
    SourceChain(m0, m', to, from, ct, cf, offset, Flat(m0, cf)[..n + len]);
    hide Sized, Wrote, Position, Flat;
  }

  lemma CopyWrites(m0: seq<Pbuf>, m: seq<Pbuf>, to: Option<nat>, from: Option<nat>, ct: seq<nat>, cf: seq<nat>,
                   offset: nat, total: nat, at: Place, n: nat, len: nat)
    requires Copying(m0, m, to, from, ct, cf, offset, total, at, n)
    requires at.i < |cf| && cf[at.i] < |m| && at.from + len <= |m[cf[at.i]].data|
    requires at.j < |ct| && ct[at.j] < |m| && at.to + len <= |m[ct[at.j]].data|
    requires n + len <= total
    ensures Wrote(m0, Poked(m, ct[at.j], at.to, m[cf[at.i]].data[at.from..at.from + len]), to, ct, offset, Flat(m0, cf)[..n + len])
  {
    var chunk := m[cf[at.i]].data[at.from..at.from + len];
    SourceKept(m0, m, ct, cf, at.i);
    hide Concat;
    ReadPiece(Pieces(m0, cf), at.i, at.from, len);
    assert chunk == Flat(m0, cf)[n..n + len];
    CopyLinks(m0, m, to, from, ct, cf, offset, Flat(m0, cf)[..n], at);
    WriteStep(m0, m, to, ct, offset, Flat(m0, cf)[..n], at.j, at.to, chunk);
    assert Flat(m0, cf)[..n] + chunk == Flat(m0, cf)[..n + len];
  }

  /** The advanced place is that of the byte len further on, in both chains. */
  lemma AdvancedPlace(m0: seq<Pbuf>, m: seq<Pbuf>, ct: seq<nat>, cf: seq<nat>, offset: nat, at: Place, n: nat, len: nat)
    requires |m| == |m0| && NoEmpty(m0, cf) && NoEmpty(m0, ct)
    requires at.i < |cf| && |m[cf[at.i]].data| == |m0[cf[at.i]].data| && at.from + len <= |m0[cf[at.i]].data|
    requires at.j < |ct| && |m[ct[at.j]].data| == |m0[ct[at.j]].data| && at.to + len <= |m0[ct[at.j]].data|
    requires Position(Pieces(m0, cf), at.i, at.from) == n && Position(Pieces(m0, ct), at.j, at.to) == offset + n
    ensures var at' := Advanced(m, ct, cf, at, len);
      && at'.i <= |cf| && Position(Pieces(m0, cf), at'.i, at'.from) == n + len
      && at'.j <= |ct| && Position(Pieces(m0, ct), at'.j, at'.to) == offset + n + len
      && (at'.i < |cf| ==> at'.from < |m0[cf[at'.i]].data|) && (at'.j < |ct| ==> at'.to <= |m0[ct[at'.j]].data|)
  {
    NextPiece(Pieces(m0, cf), at.i);
    NextPiece(Pieces(m0, ct), at.j);
  }

  /** Writing into the target leaves the source alone. */
  lemma SourceKept(m0: seq<Pbuf>, m: seq<Pbuf>, ct: seq<nat>, cf: seq<nat>, i: nat)
    requires Apart(ct, cf) && i < |cf| && cf[i] < |m| == |m0|
    requires forall q :: 0 <= q < |m| && q !in ct ==> m[q] == m0[q]
    ensures m[cf[i]] == m0[cf[i]]
  {
  }

  lemma SourceChain(m0: seq<Pbuf>, m: seq<Pbuf>, to: Option<nat>, from: Option<nat>, ct: seq<nat>, cf: seq<nat>,
                    offset: nat, bytes: seq<byte>)
    requires Sized(m0, from, cf) && Apart(ct, cf) && Wrote(m0, m, to, ct, offset, bytes)
    ensures Sized(m, from, cf)
  {
    SameShapePacket(m0, m, from, cf);
  }

  lemma CopyLinks(m0: seq<Pbuf>, m: seq<Pbuf>, to: Option<nat>, from: Option<nat>, ct: seq<nat>, cf: seq<nat>,
                  offset: nat, bytes: seq<byte>, at: Place)
    requires Sized(m, from, cf) && Wrote(m0, m, to, ct, offset, bytes) && at.i < |cf| && at.j < |ct|
    ensures m[cf[at.i]].next == At(cf, at.i + 1) && m[ct[at.j]].next == At(ct, at.j + 1)
    ensures |m0[cf[at.i]].data| == |m[cf[at.i]].data| && |m0[ct[at.j]].data| == |m[ct[at.j]].data|
  {
    assert Linked(m, cf, at.i) && Linked(m, ct, at.j);
    assert SameButBytes(m0[cf[at.i]], m[cf[at.i]]) && SameButBytes(m0[ct[at.j]], m[ct[at.j]]);
  }

  // ---------- Round trips ----------

  /** What pbuf_take_at wrote at an offset, pbuf_copy_partial reads back from there. */
  lemma TakenIsCopiedBack(m0: seq<Pbuf>, m: seq<Pbuf>, p: Option<nat>, c: seq<nat>, offset: nat, bytes: seq<byte>,
                          d0: seq<byte>, d: seq<byte>)
    requires Wrote(m0, m, p, c, offset, bytes) && |bytes| == |d0|
    requires Received(d0, d, Flat(m, c), offset, Available(Flat(m, c), |bytes|, offset))
    ensures d == bytes
  {
    assert forall j :: 0 <= j < |c| ==> c[j] < |m|;
    hide Sized, SameShape;
    assert Flat(m, c)[offset..offset + |bytes|] == bytes;
  }
}
