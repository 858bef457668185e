/** Operations that change the links and lengths of packet-buffer chains: each acts as a plain
    operation on the flat byte sequence, keeps the tot_len fields right modulo 16 bits, and
    keeps the reference counts right. */
module PbufOps {
  import opened PbufChain
  import opened PbufMemory
  import opened PbufRefs
  import opened Prelude

  // ---------- Changes that leave a chain alone ----------

  /** The buffers of a chain differ at most in their reference counts. */
  ghost predicate SameOn(m: seq<Pbuf>, m': seq<Pbuf>, c: seq<nat>) {
    forall i :: 0 <= i < |c| ==> c[i] < |m| && c[i] < |m'| && m'[c[i]] == m[c[i]].(ref := m'[c[i]].ref)
  }

  lemma SameFlat(m: seq<Pbuf>, m': seq<Pbuf>, c: seq<nat>)
    requires SameOn(m, m', c)
    ensures Flat(m', c) == Flat(m, c)
  {
    assert Pieces(m', c) == Pieces(m, c);
  }

  lemma SamePacket(m: seq<Pbuf>, m': seq<Pbuf>, p: Option<nat>, c: seq<nat>)
    requires SameOn(m, m', c) && Packet(m, p, c)
    ensures Packet(m', p, c) && Flat(m', c) == Flat(m, c)
  {
    SameFlat(m, m', c);
    forall i: nat | i < |c| ensures Linked(m', c, i) && TotalAt(m', c, i) {
      assert Linked(m, c, i) && TotalAt(m, c, i);
      SameFlat(m, m', c[i..]);
    }
  }

  // ---------- tot_len ----------

  /** Buffers that are not in the chain are as they were. */
  ghost predicate Elsewhere(m0: seq<Pbuf>, m: seq<Pbuf>, c: seq<nat>) {
    |m| == |m0| && forall q :: 0 <= q < |m0| && q !in c ==> m[q] == m0[q]
  }

  /** The first k buffers of the chain have d added to their tot_len; nothing else differs. */
  ghost predicate Retotalled(m0: seq<Pbuf>, m: seq<Pbuf>, c: seq<nat>, k: nat, d: int) {
    && k <= |c| && (forall i :: 0 <= i < |c| ==> c[i] < |m0|)
    && |m| == |m0| && forall q :: 0 <= q < |m| ==> m[q] == if q in c[..k] then Added(m0[q], d) else m0[q]
  }

  function Added(b: Pbuf, d: int): Pbuf { b.(totLen := (b.totLen + d) % M16) }

  lemma NothingRetotalled(m: seq<Pbuf>, c: seq<nat>, d: int)
    requires forall i :: 0 <= i < |c| ==> c[i] < |m|
    ensures Retotalled(m, m, c, 0, d)
  {
  }

  /** One more buffer gets its new tot_len. */
  lemma RetotalNext(m0: seq<Pbuf>, m: seq<Pbuf>, p: Option<nat>, c: seq<nat>, k: nat, d: int, h: multiset<nat>)
    requires IsChain(m0, p, c) && Retotalled(m0, m, c, k, d) && k < |c| && Counted(m, h)
    ensures c[k] < |m| && m[c[k]] == m0[c[k]] && m[c[k]].next == At(c, k + 1) && m[c[k]].live
    ensures Retotalled(m0, m[c[k] := Added(m[c[k]], d)], c, k + 1, d) && Counted(m[c[k] := Added(m[c[k]], d)], h)
  {
    assert Linked(m0, c, k);
    assert c[k] !in c[..k];
    assert c[..k + 1] == c[..k] + [c[k]];
    Recount(m, h, c[k], Added(m[c[k]], d));
  }

  lemma AddMod(a: int, b: int)
    ensures (a % M16 + b) % M16 == (a + b) % M16 && (a % M16 + b % M16) % M16 == (a + b) % M16
  {
  }

  // ---------- pbuf_cat ----------

  /** The memory after the chain ch was continued with the one t starts. */
  ghost predicate Catted(m0: seq<Pbuf>, m: seq<Pbuf>, ch: seq<nat>, t: nat) {
    && ch != [] && (forall i :: 0 <= i < |ch| ==> ch[i] < |m0|) && t < |m0| == |m|
    && forall q :: 0 <= q < |m| ==> m[q] == AfterCat(m0, ch, t, q)
  }

  function AfterCat(m0: seq<Pbuf>, ch: seq<nat>, t: nat, q: nat): Pbuf
    requires ch != [] && q < |m0| && t < |m0|
  {
    var b := if q in ch then Added(m0[q], m0[t].totLen) else m0[q];
    if q == ch[|ch| - 1] then b.(next := Some(t)) else b
  }

  lemma CatFlat(m0: seq<Pbuf>, m: seq<Pbuf>, ch: seq<nat>, ct: seq<nat>, t: nat)
    requires Catted(m0, m, ch, t) && forall i :: 0 <= i < |ct| ==> ct[i] < |m0|
    ensures Flat(m, ch + ct) == Flat(m0, ch) + Flat(m0, ct)
  {
    assert Pieces(m, ch + ct) == Pieces(m0, ch) + Pieces(m0, ct);
    ConcatAppend(Pieces(m0, ch), Pieces(m0, ct));
  }

  lemma CatChain(m0: seq<Pbuf>, m: seq<Pbuf>, h: nat, t: nat, ch: seq<nat>, ct: seq<nat>)
    requires IsChain(m0, Some(h), ch) && IsChain(m0, Some(t), ct) && Apart(ch, ct) && Catted(m0, m, ch, t)
    ensures IsChain(m, Some(h), ch + ct)
  {
    var c := ch + ct;
    forall i | 0 <= i < |c| ensures c[i] < |m| && Linked(m, c, i) {
      if i < |ch| { assert Linked(m0, ch, i); } else { assert Linked(m0, ct, i - |ch|); }
    }
  }

  lemma CatTotals(m0: seq<Pbuf>, m: seq<Pbuf>, h: nat, t: nat, ch: seq<nat>, ct: seq<nat>)
    requires Packet(m0, Some(h), ch) && Packet(m0, Some(t), ct) && Apart(ch, ct) && Catted(m0, m, ch, t)
    ensures Packet(m, Some(h), ch + ct) && Flat(m, ch + ct) == Flat(m0, ch) + Flat(m0, ct)
  {
    var c := ch + ct;
    CatChain(m0, m, h, t, ch, ct);
    CatFlat(m0, m, ch, ct, t);
    forall i: nat | i < |c| ensures TotalAt(m, c, i) {
      if i < |ch| { CatFront(m0, m, t, ch, ct, i); } else { CatBack(m0, m, t, ch, ct, i - |ch|); }
    }
  }

  lemma CatFront(m0: seq<Pbuf>, m: seq<Pbuf>, t: nat, ch: seq<nat>, ct: seq<nat>, i: nat)
    requires Catted(m0, m, ch, t) && Packet(m0, Some(t), ct) && i < |ch| && TotalAt(m0, ch, i)
    ensures TotalAt(m, ch + ct, i)
  {
    assert (ch + ct)[i..] == ch[i..] + ct && (ch + ct)[i] == ch[i];
    CatRest(m0, m, ch, ct, t, i);
    assert TotalAt(m0, ct, 0) && ct[0..] == ct;
    AddMod(|Flat(m0, ch[i..])|, |Flat(m0, ct)|);
    hide Flat;
  }

  lemma CatBack(m0: seq<Pbuf>, m: seq<Pbuf>, t: nat, ch: seq<nat>, ct: seq<nat>, i: nat)
    requires Catted(m0, m, ch, t) && Apart(ch, ct) && i < |ct| && (forall i :: 0 <= i < |ct| ==> ct[i] < |m0|)
    requires TotalAt(m0, ct, i)
    ensures TotalAt(m, ch + ct, |ch| + i)
  {
    assert (ch + ct)[|ch| + i..] == ct[i..] && (ch + ct)[|ch| + i] == ct[i];
    assert Pieces(m, ct[i..]) == Pieces(m0, ct[i..]);
  }

  lemma CatRest(m0: seq<Pbuf>, m: seq<Pbuf>, ch: seq<nat>, ct: seq<nat>, t: nat, i: nat)
    requires Catted(m0, m, ch, t) && i < |ch| && forall i :: 0 <= i < |ct| ==> ct[i] < |m0|
    ensures Flat(m, ch[i..] + ct) == Flat(m0, ch[i..]) + Flat(m0, ct)
  {
    assert Pieces(m, ch[i..] + ct) == Pieces(m0, ch[i..]) + Pieces(m0, ct);
    ConcatAppend(Pieces(m0, ch[i..]), Pieces(m0, ct));
  }

  lemma CatEnd(m0: seq<Pbuf>, m: seq<Pbuf>, h: nat, t: nat, ch: seq<nat>, k: nat)
    requires IsChain(m0, Some(h), ch) && t < |m0| && k + 1 == |ch|
    requires Retotalled(m0, m, ch, k, m0[t].totLen)
    ensures Catted(m0, m[ch[k] := Added(m[ch[k]], m0[t].totLen).(next := Some(t))], ch, t)
  {
    assert ch == ch[..k] + [ch[k]];
    assert ch[k] !in ch[..k];
  }

  /** pbuf_cat: append the chain of t, taking over the caller's handle on it. */
  method Cat(s: Memory, h: nat, t: nat, ghost ch: seq<nat>, ghost ct: seq<nat>, ghost hs: multiset<nat>)
    requires Packet(s.mem, Some(h), ch) && Packet(s.mem, Some(t), ct) && Apart(ch, ct)
    requires Counted(s.mem, hs) && t in hs
    modifies s
    ensures Packet(s.mem, Some(h), ch + ct) && Flat(s.mem, ch + ct) == Flat(old(s.mem), ch) + Flat(old(s.mem), ct)
    ensures Catted(old(s.mem), s.mem, ch, t) && Counted(s.mem, hs - multiset{t})
  {
    ghost var m0 := s.mem;
    var p, add := h, s.mem[t].totLen;
    ghost var k: nat := 0;
    NothingRetotalled(m0, ch, add);
    hide Counted, Retotalled, Packet, Catted;
    assert IsChain(m0, Some(h), ch) by { PacketIsChain(m0, Some(h), ch); }
    CatHead(m0, h, t, ch, ct);
    hide IsChain;
    while true
      invariant k < |ch| && p == ch[k] && Retotalled(m0, s.mem, ch, k, add) && Counted(s.mem, hs)
      decreases |ch| - k
    {
      RetotalNext(m0, s.mem, Some(h), ch, k, add, hs);
      if s.mem[p].next.None? {
        break;
      }
      var next := s.mem[p].next.value;
      s.mem := s.mem[p := Added(s.mem[p], add)];
      p, k := next, k + 1;
    }
    ghost var m := s.mem;
    CatLast(m0, m, h, t, ch, ct, k, hs);
    s.mem := s.mem[p := Added(s.mem[p], add).(next := Some(t))];
    CatTotals(m0, s.mem, h, t, ch, ct);
  }

  lemma PacketIsChain(m: seq<Pbuf>, p: Option<nat>, c: seq<nat>)
    requires Packet(m, p, c)
    ensures IsChain(m, p, c)
  {
  }

  lemma CatHead(m: seq<Pbuf>, h: nat, t: nat, ch: seq<nat>, ct: seq<nat>)
    requires Packet(m, Some(h), ch) && Packet(m, Some(t), ct)
    ensures ch != [] && ch[0] == h && ct != [] && ct[0] == t && t < |m|
  {
  }

  /** The last buffer gets its tot_len and its link. */
  lemma CatLast(m0: seq<Pbuf>, m: seq<Pbuf>, h: nat, t: nat, ch: seq<nat>, ct: seq<nat>, k: nat, hs: multiset<nat>)
    requires Packet(m0, Some(h), ch) && Packet(m0, Some(t), ct) && k < |ch|
    requires Retotalled(m0, m, ch, k, m0[t].totLen) && Counted(m, hs) && t in hs
    requires ch[k] < |m| && m[ch[k]].next.None?
    ensures m[ch[k]].totLen == |m[ch[k]].data|
    ensures var m' := m[ch[k] := Added(m[ch[k]], m0[t].totLen).(next := Some(t))];
      Catted(m0, m', ch, t) && Counted(m', hs - multiset{t})
  {
    RetotalNext(m0, m, Some(h), ch, k, m0[t].totLen, hs);
    LastBuffer(m0, Some(h), ch, k);
    var m1 := m[ch[k] := Added(m[ch[k]], m0[t].totLen)];
    assert m1[ch[k] := m1[ch[k]].(next := Some(t))] == m[ch[k] := Added(m[ch[k]], m0[t].totLen).(next := Some(t))];
    CatEnd(m0, m, h, t, ch, k);
    hide Catted, Packet, Retotalled;
    Relink(m1, hs, ch[k], Some(t));
    assert hs + multiset{} == hs;
  }

  lemma LastBuffer(m: seq<Pbuf>, p: Option<nat>, c: seq<nat>, k: nat)
    requires Packet(m, p, c) && k < |c| && m[c[k]].next.None?
    ensures k + 1 == |c| && m[c[k]].totLen == |m[c[k]].data|
  {
    assert Linked(m, c, k) && TotalAt(m, c, k);
    FlatTail(m, c, k);
  }

  lemma CattedTail(m0: seq<Pbuf>, m: seq<Pbuf>, h: nat, t: nat, ch: seq<nat>, ct: seq<nat>)
    requires Packet(m0, Some(h), ch) && Packet(m0, Some(t), ct) && Apart(ch, ct) && Catted(m0, m, ch, t)
    ensures t < |m| == |m0| && m[t] == m0[t] && m[t].live
  {
    assert ct[0] == t && Linked(m0, ct, 0);
  }

  lemma InMemory(m: seq<Pbuf>, p: Option<nat>, c: seq<nat>)
    requires Packet(m, p, c)
    ensures forall i :: 0 <= i < |c| ==> c[i] < |m|
  {
  }

  /** pbuf_chain: append the chain of t; the caller keeps its handle on it. */
  method Chain(s: Memory, h: nat, t: nat, ghost ch: seq<nat>, ghost ct: seq<nat>, ghost hs: multiset<nat>)
    requires Packet(s.mem, Some(h), ch) && Packet(s.mem, Some(t), ct) && Apart(ch, ct)
    requires Counted(s.mem, hs) && t in hs && s.mem[t].ref < 0xFF
    modifies s
    ensures Packet(s.mem, Some(h), ch + ct) && Flat(s.mem, ch + ct) == Flat(old(s.mem), ch) + Flat(old(s.mem), ct)
    ensures Counted(s.mem, hs)
  {
    hide Counted, Packet, Flat;
    CatHead(s.mem, h, t, ch, ct);
    Cat(s, h, t, ch, ct, hs);
    ghost var m := s.mem;
    CattedTail(old(s.mem), m, h, t, ch, ct);
    Ref(s, t, hs - multiset{t});
    assert hs - multiset{t} + multiset{t} == hs;
    assert SameOn(m, s.mem, ch + ct) by { InMemory(m, Some(h), ch + ct); }
    SamePacket(m, s.mem, Some(h), ch + ct);
  }

  // ---------- pbuf_dechain ----------

  /** Taking the first buffer off leaves two packets and a handle where the link was. */
  lemma Decoupled(m: seq<Pbuf>, p: nat, c: seq<nat>, h: multiset<nat>)
    requires Packet(m, Some(p), c) && Counted(m, h) && 1 < |c|
    ensures c[0] == p < |m| && m[p].next == Some(c[1]) && c[1] < |m|
    ensures m[c[1]].totLen == (m[p].totLen - |m[p].data|) % M16
    ensures var m1 := m[p := m[p].(next := None, totLen := |m[p].data|)];
      && Counted(m1, h + multiset{c[1]}) && Packet(m1, Some(p), [p])
      && Packet(m1, Some(c[1]), c[1..]) && Flat(m1, c[1..]) == Flat(m, c)[|m[p].data|..]
  {
    DecoupledLengths(m, p, c);
    ChainTail(m, Some(p), c, 0);
    DecoupledTail(m, p, c);
    DecoupledCounts(m, p, h);
    hide Packet, Counted, Flat;
    var m1 := m[p := m[p].(next := None, totLen := |m[p].data|)];
    SamePacket(m, m1, Some(c[1]), c[1..]);
    SinglePacket(m1, p);
  }

  lemma DecoupledLengths(m: seq<Pbuf>, p: nat, c: seq<nat>)
    requires Packet(m, Some(p), c) && 1 < |c|
    ensures c[0] == p < |m| && m[p].live && m[p].next == Some(c[1]) && c[1] < |m| && |m[p].data| < M16
    ensures m[c[1]].totLen == (m[p].totLen - |m[p].data|) % M16
    ensures Flat(m, c[1..]) == Flat(m, c)[|m[p].data|..]
  {
    assert Linked(m, c, 0) && TotalAt(m, c, 0) && TotalAt(m, c, 1) && c[0..] == c;
    FlatTail(m, c, 0);
  }

  /** The first buffer of a chain is not in the rest of it. */
  lemma DecoupledTail(m: seq<Pbuf>, p: nat, c: seq<nat>)
    requires IsChain(m, Some(p), c) && 1 < |c|
    ensures p < |m| && p !in c[1..]
    ensures SameOn(m, m[p := m[p].(next := None, totLen := |m[p].data|)], c[1..])
  {
  }

  lemma SinglePacket(m: seq<Pbuf>, p: nat)
    requires p < |m| && m[p].live && m[p].next.None? && m[p].totLen == |m[p].data| < M16
    ensures Packet(m, Some(p), [p]) && Flat(m, [p]) == m[p].data
  {
    var c := [p];
    assert Linked(m, c, 0) && c[0..] == c && c[1..] == [];
    FlatTail(m, c, 0);
    assert TotalAt(m, c, 0);
  }

  lemma DecoupledCounts(m: seq<Pbuf>, p: nat, h: multiset<nat>)
    requires Counted(m, h) && p < |m| && m[p].live
    ensures Counted(m[p := m[p].(next := None, totLen := |m[p].data|)], h + Handle(m[p].next))
  {
    var b := m[p].(totLen := |m[p].data|);
    Recount(m, h, p, b);
    Relink(m[p := b], h, p, None);
    assert m[p := b][p := b.(next := None)] == m[p := m[p].(next := None, totLen := |m[p].data|)];
    assert h + Handle(m[p].next) - Handle(None) == h + Handle(m[p].next);
  }

  /** pbuf_dechain: p becomes a packet of its own. Returns the rest, unless nothing else referred to it. */
  method Dechain(s: Memory, p: nat, ghost c: seq<nat>, ghost h: multiset<nat>) returns (r: Option<nat>)
    requires Packet(s.mem, Some(p), c) && Counted(s.mem, h) && |c| <= 0x100
    modifies s
    ensures Counted(s.mem, h)
    ensures Packet(s.mem, Some(p), [p]) && s.mem[p].data == old(s.mem)[p].data
    ensures Elsewhere(old(s.mem), s.mem, c)
    ensures r == if |c| == 1 || old(s.mem)[c[1]].ref == 1 then None else Some(c[1])
    ensures r.Some? ==> Packet(s.mem, r, c[1..]) && Flat(s.mem, c[1..]) == Flat(old(s.mem), c)[|old(s.mem)[p].data|..]
  {
    hide Packet, Counted, Flat, FreedRun;
    ghost var m0 := s.mem;
    DechainStart(m0, p, c, h);
    var q := s.mem[p].next;
    var tailGone := 1;
    if q.Some? {
      Decoupled(m0, p, c, h);
      s.mem := s.mem[q.value := s.mem[q.value].(totLen := (s.mem[p].totLen - |s.mem[p].data|) % M16)];
      assert s.mem == m0;
      s.mem := s.mem[p := s.mem[p].(next := None, totLen := |s.mem[p].data|)];
      ghost var m1 := s.mem;
      assert IsChain(m1, q, c[1..]) by { PacketIsChain(m1, q, c[1..]); }
      ChainReferenced(m1, q.value, c[1..], h + multiset{q.value});
      tailGone := Free(s, q.value, c[1..]);
      FreeKeepsCounts(m1, s.mem, q.value, c[1..], tailGone, h + multiset{q.value});
      assert h + multiset{q.value} - multiset{q.value} == h;
      DechainEnd(m1, s.mem, p, c, tailGone);
    }
    r := if tailGone > 0 then None else q;
  }

  lemma DechainStart(m: seq<Pbuf>, p: nat, c: seq<nat>, h: multiset<nat>)
    requires Packet(m, Some(p), c) && Counted(m, h)
    ensures p < |m| && c != [] && m[p].next == At(c, 1) && (c[1..] != [] ==> p !in c[1..])
    ensures |c| == 1 ==> Packet(m, Some(p), [p])
  {
    assert Linked(m, c, 0);
    if |c| == 1 {
      assert c == [p];
    }
  }

  lemma DechainEnd(m1: seq<Pbuf>, m: seq<Pbuf>, p: nat, c: seq<nat>, k: nat)
    requires Packet(m1, Some(p), [p]) && 1 < |c| && Packet(m1, Some(c[1]), c[1..]) && FreedRun(m1, m, c[1..], k)
    requires p !in c[1..] && c[0] == p
    ensures Elsewhere(m1, m, c)
    ensures p < |m| == |m1| && Packet(m, Some(p), [p]) && m[p] == m1[p]
    ensures c[1] < |m1| && (k == 0 <==> m1[c[1]].ref != 1)
    ensures k == 0 ==> Packet(m, Some(c[1]), c[1..]) && Flat(m, c[1..]) == Flat(m1, c[1..])
  {
    assert c[1..][0] == c[1];
    assert m[p] == m1[p] by { assert forall x :: x in c[1..][..k] ==> x in c[1..]; }
    assert SameOn(m1, m, [p]);
    SamePacket(m1, m, Some(p), [p]);
    if k == 0 {
      assert SameOn(m1, m, c[1..]);
      SamePacket(m1, m, Some(c[1]), c[1..]);
    }
  }

  // ---------- pbuf_free_header ----------

  /** pbuf_remove_header */
  method RemoveHeader(s: Memory, p: nat, n: nat) returns (failed: bool)
    requires p < |s.mem|
    modifies s
    ensures failed <==> |old(s.mem)[p].data| < n
    ensures s.mem == if failed then old(s.mem) else old(s.mem)[p := WithoutHeader(old(s.mem)[p], n)]
  {
    if n == 0 {
      return false;
    }
    if n > |s.mem[p].data| {
      return true;
    }
    s.mem := s.mem[p := s.mem[p].(data := s.mem[p].data[n..], totLen := (s.mem[p].totLen - n) % M16)];
    failed := false;
  }

  function WithoutHeader(b: Pbuf, n: nat): (r: Pbuf)
    requires n <= |b.data|
  {
    if n == 0 then b else b.(data := b.data[n..], totLen := (b.totLen - n) % M16)
  }

  /** Shortening the first buffer at its front drops bytes of the packet. */
  lemma HeaderDropped(m: seq<Pbuf>, p: nat, c: seq<nat>, n: nat, h: multiset<nat>)
    requires Packet(m, Some(p), c) && Counted(m, h) && p < |m| && n <= |m[p].data|
    ensures var m' := m[p := WithoutHeader(m[p], n)];
      && Packet(m', Some(p), c) && Counted(m', h)
      && n <= |Flat(m, c)| && Flat(m', c) == Flat(m, c)[n..]
  {
    var m' := m[p := WithoutHeader(m[p], n)];
    Recount(m, h, p, m'[p]);
    HeaderFlat(m, p, c, n);
    forall i: nat | i < |c| ensures Linked(m', c, i) && TotalAt(m', c, i) {
      assert Linked(m, c, i) && TotalAt(m, c, i);
      if i != 0 { HeaderBehind(m, p, c, n, i); }
    }
    hide Flat, Counted;
  }

  lemma HeaderFlat(m: seq<Pbuf>, p: nat, c: seq<nat>, n: nat)
    requires Packet(m, Some(p), c) && p < |m| && n <= |m[p].data|
    ensures var m' := m[p := WithoutHeader(m[p], n)];
      n <= |Flat(m, c)| && Flat(m', c) == Flat(m, c)[n..] && TotalAt(m', c, 0)
  {
    HeaderBytes(m, p, c, n);
    assert TotalAt(m, c, 0) && c[0] == p;
    AddMod(|Flat(m, c)|, 0 - n);
    assert c[0..] == c;
    hide Packet, Flat;
  }

  lemma HeaderBytes(m: seq<Pbuf>, p: nat, c: seq<nat>, n: nat)
    requires IsChain(m, Some(p), c) && p < |m| && n <= |m[p].data|
    ensures n <= |Flat(m, c)| && Flat(m[p := WithoutHeader(m[p], n)], c) == Flat(m, c)[n..]
  {
    var m' := m[p := WithoutHeader(m[p], n)];
    HeaderRest(m, p, c, n);
    hide Concat, IsChain;
    FlatTail(m, c, 0);
    FlatTail(m', c, 0);
    assert c[0..] == c;
    DropHead(m[p].data, Flat(m, c[1..]), n);
  }

  lemma HeaderRest(m: seq<Pbuf>, p: nat, c: seq<nat>, n: nat)
    requires IsChain(m, Some(p), c) && p < |m| && n <= |m[p].data|
    ensures c != [] && c[0] == p && (forall i :: 0 <= i < |c| ==> c[i] < |m|)
    ensures Flat(m[p := WithoutHeader(m[p], n)], c[1..]) == Flat(m, c[1..])
  {
    assert Pieces(m[p := WithoutHeader(m[p], n)], c[1..]) == Pieces(m, c[1..]);
  }

  lemma DropHead(a: seq<byte>, b: seq<byte>, n: nat)
    requires n <= |a|
    ensures (a + b)[n..] == a[n..] + b
  {
  }

  lemma HeaderBehind(m: seq<Pbuf>, p: nat, c: seq<nat>, n: nat, i: nat)
    requires IsChain(m, Some(p), c) && p < |m| && n <= |m[p].data| && 0 < i < |c| && TotalAt(m, c, i)
    ensures TotalAt(m[p := WithoutHeader(m[p], n)], c, i)
  {
    assert Pieces(m[p := WithoutHeader(m[p], n)], c[i..]) == Pieces(m, c[i..]);
  }

  /** The first k buffers are given up; the rest is as before and holds what is left to drop. */
  ghost predicate Dropping(m0: seq<Pbuf>, m: seq<Pbuf>, c: seq<nat>, k: nat, size: nat, left: nat) {
    && k <= |c| && (forall i :: 0 <= i < |c| ==> c[i] < |m0|) && |m| == |m0|
    && (forall i :: k <= i < |c| ==> m[c[i]] == m0[c[i]])
    && Position(Pieces(m0, c), k, left) == size && Elsewhere(m0, m, c)
  }

  /** The buffers from k on are a packet of the bytes without the first `size` ones. */
  ghost predicate HeaderFreed(m0: seq<Pbuf>, m: seq<Pbuf>, c: seq<nat>, k: nat, size: nat) {
    && k <= |c| && Packet(m, At(c, k), c[k..]) && (forall i :: 0 <= i < |c| ==> c[i] < |m0|)
    && Flat(m, c[k..]) == Flat(m0, c)[Min(size, |Flat(m0, c)|)..] && Elsewhere(m0, m, c)
  }

  lemma DropStart(m: seq<Pbuf>, q: Option<nat>, c: seq<nat>, h: multiset<nat>, size: nat)
    requires Packet(m, q, c) && Counted(m, h) && (q.Some? ==> q.value in h)
    ensures Dropping(m, m, c, 0, size, size) && q == At(c, 0) && h - Handle(q) + Handle(q) == h
  {
    EmptyPosition(Pieces(m, c), size);
  }

  /** The buffer f at the front is about to be unlinked and freed. */
  lemma DropInside(m0: seq<Pbuf>, m: seq<Pbuf>, q: Option<nat>, c: seq<nat>, k: nat, size: nat, left: nat)
    requires Packet(m0, q, c) && Dropping(m0, m, c, k, size, left) && At(c, k).Some?
    ensures k < |c| && At(c, k) == Some(c[k]) && c[k] < |m| && m[c[k]].live && m[c[k]].next == At(c, k + 1)
  {
    assert Linked(m0, c, k);
  }

  lemma Unlinked(m: seq<Pbuf>, f: nat, h: multiset<nat>)
    requires Counted(m, h) && f < |m| && m[f].live && f in h
    ensures var m1 := m[f := m[f].(next := None)];
      IsChain(m1, Some(f), [f]) && Counted(m1, h + Handle(m[f].next)) && f in h + Handle(m[f].next)
  {
    Relink(m, h, f, None);
    assert h + Handle(m[f].next) - Handle(None) == h + Handle(m[f].next);
    var m1 := m[f := m[f].(next := None)];
    assert Linked(m1, [f], 0);
  }

  lemma MoveHandle(rest: multiset<nat>, f: nat, next: Option<nat>)
    ensures f in rest + Handle(Some(f))
    ensures rest + Handle(Some(f)) + Handle(next) - multiset{f} == rest + Handle(next)
  {
  }

  lemma DropStep(m0: seq<Pbuf>, m: seq<Pbuf>, m': seq<Pbuf>, q: Option<nat>, c: seq<nat>, k: nat, size: nat, left: nat, freed: nat)
    requires Packet(m0, q, c) && Dropping(m0, m, c, k, size, left) && k < |c|
    requires c[k] < |m| && FreedRun(m[c[k] := m[c[k]].(next := None)], m', [c[k]], freed) && |m[c[k]].data| <= left
    ensures Dropping(m0, m', c, k + 1, size, left - |m[c[k]].data|)
  {
    assert [c[k]][..freed] == [] || [c[k]][..freed] == [c[k]];
    NextPiece(Pieces(m0, c), k);
  }

  lemma DropEnd(m0: seq<Pbuf>, m: seq<Pbuf>, q: Option<nat>, c: seq<nat>, k: nat, size: nat, left: nat)
    requires Packet(m0, q, c) && Dropping(m0, m, c, k, size, left) && (left == 0 || At(c, k).None?)
    ensures HeaderFreed(m0, m, c, k, size)
  {
    if k < |c| { ChainTail(m0, q, c, k); }
    SplitFlat(m0, c, k);
    AtEnd(Pieces(m0, c));
    assert SameOn(m0, m, c[k..]);
    SamePacket(m0, m, At(c, k), c[k..]);
  }

  /** The buffer f is taken off its chain and freed. */
  method UnlinkAndFree(s: Memory, f: nat, ghost h: multiset<nat>) returns (freed: nat)
    requires Counted(s.mem, h) && f < |s.mem| && s.mem[f].live && f in h
    modifies s
    ensures FreedRun(old(s.mem)[f := old(s.mem)[f].(next := None)], s.mem, [f], freed)
    ensures Counted(s.mem, h + Handle(old(s.mem)[f].next) - multiset{f})
  {
    hide Counted, FreedRun, IsChain;
    ghost var held := h + Handle(s.mem[f].next);
    Unlinked(s.mem, f, h);
    s.mem := s.mem[f := s.mem[f].(next := None)];
    ghost var m1 := s.mem;
    ChainReferenced(m1, f, [f], held);
    freed := Free(s, f, [f]);
    FreeKeepsCounts(m1, s.mem, f, [f], freed, held);
  }

  /** One buffer that is dropped whole, its handle passed on to the next. */
  method DropFirst(s: Memory, f: nat, ghost m0: seq<Pbuf>, ghost q: Option<nat>, ghost c: seq<nat>, ghost k: nat, ghost size: nat,
                   left: nat, ghost rest: multiset<nat>) returns (p: Option<nat>)
    requires Packet(m0, q, c) && Dropping(m0, s.mem, c, k, size, left) && k < |c| && f == c[k] < |s.mem|
    requires s.mem[f].live && s.mem[f].next == At(c, k + 1) && |s.mem[f].data| <= left
    requires Counted(s.mem, rest + Handle(Some(f)))
    modifies s
    ensures Dropping(m0, s.mem, c, k + 1, size, left - |old(s.mem)[f].data|)
    ensures p == At(c, k + 1) && Counted(s.mem, rest + Handle(p))
  {
    hide Packet, Counted, Dropping, FreedRun, At, Handle;
    ghost var m := s.mem;
    MoveHandle(rest, f, s.mem[f].next);
    p := s.mem[f].next;
    var freed := UnlinkAndFree(s, f, rest + Handle(Some(f)));
    DropStep(m0, m, s.mem, q, c, k, size, left, freed);
  }

  /** pbuf_free_header: drop bytes from the front; buffers left without bytes are freed. */
  method FreeHeader(s: Memory, q: Option<nat>, size: nat, ghost c: seq<nat>, ghost h: multiset<nat>)
    returns (p: Option<nat>, ghost k: nat)
    requires Packet(s.mem, q, c) && Counted(s.mem, h) && (q.Some? ==> q.value in h)
    modifies s
    ensures p == At(c, k) && HeaderFreed(old(s.mem), s.mem, c, k, size)
    ensures Counted(s.mem, h - Handle(q) + Handle(p))
  {
    hide Packet, Counted, Flat, FreedRun, Dropping, IsChain, At, Handle, WithoutHeader, HeaderFreed, Elsewhere;
    ghost var m0, rest := s.mem, h - Handle(q);
    var left: nat := size;
    p, k := q, 0;
    DropStart(m0, q, c, h, size);
    while left != 0 && p.Some?
      invariant Dropping(m0, s.mem, c, k, size, left) && p == At(c, k)
      invariant Counted(s.mem, rest + Handle(p))
      decreases |c| - k
    {
      DropInside(m0, s.mem, q, c, k, size, left);
      var f := p.value;
      var len := |s.mem[f].data|;
      if left >= len {
        p := DropFirst(s, f, m0, q, c, k, size, left, rest);
        left := left - len;
        k := k + 1;
      } else {
        DropPartly(m0, s.mem, q, c, k, size, left, rest + Handle(p));
        var failed := RemoveHeader(s, f, left);
        return;
      }
    }
    DropEnd(m0, s.mem, q, c, k, size, left);
  }

  lemma DropPartly(m0: seq<Pbuf>, m: seq<Pbuf>, q: Option<nat>, c: seq<nat>, k: nat, size: nat, left: nat, h: multiset<nat>)
    requires Packet(m0, q, c) && Dropping(m0, m, c, k, size, left) && Counted(m, h)
    requires k < |c| && c[k] < |m| && left < |m[c[k]].data|
    ensures var m' := m[c[k] := WithoutHeader(m[c[k]], left)];
      HeaderFreed(m0, m', c, k, size) && Counted(m', h)
  {
    ChainTail(m0, q, c, k);
    SplitFlat(m0, c, k);
    PieceInside(Pieces(m0, c), k, left);
    assert SameOn(m0, m, c[k..]);
    SamePacket(m0, m, Some(c[k]), c[k..]);
    HeaderDropped(m, c[k], c[k..], left, h);
  }

  // ---------- pbuf_split_64k ----------

  lemma Prefix(m: seq<Pbuf>, c: seq<nat>, j: nat, k: nat)
    requires j <= k <= |c| && forall i :: 0 <= i < |c| ==> c[i] < |m|
    ensures Flat(m, c[j..]) == Flat(m, c[..k][j..]) + Flat(m, c[k..])
  {
    SplitFlat(m, c[j..], k - j);
    assert c[j..][k - j..] == c[k..] && c[j..][..k - j] == c[..k][j..];
    assert Pieces(m, c[j..])[..k - j] == Pieces(m, c[..k][j..]);
  }

  /** The link behind buffer k - 1 is cut: what it linked to becomes a handle. */
  lemma CutLink(m: seq<Pbuf>, p: Option<nat>, c: seq<nat>, k: nat, h: multiset<nat>)
    requires IsChain(m, p, c) && Counted(m, h) && 0 < k <= |c|
    ensures c[k - 1] < |m| && m[c[k - 1]].next == At(c, k)
    ensures var m1 := m[c[k - 1] := m[c[k - 1]].(next := None)];
      IsChain(m1, p, c[..k]) && Counted(m1, h + Handle(At(c, k)))
  {
    assert Linked(m, c, k - 1);
    Relink(m, h, c[k - 1], None);
    assert h + Handle(m[c[k - 1]].next) - Handle(None) == h + Handle(m[c[k - 1]].next);
    var m1 := m[c[k - 1] := m[c[k - 1]].(next := None)];
    forall i | 0 <= i < k ensures Linked(m1, c[..k], i) { assert Linked(m, c, i); }
  }

  /** The front of a chain that was cut, with the length of the rest taken off every tot_len. */
  ghost predicate Fronted(m0: seq<Pbuf>, m: seq<Pbuf>, c: seq<nat>, k: nat) {
    && 0 < k <= |c| && (forall i :: 0 <= i < |c| ==> c[i] < |m0|)
    && Retotalled(m0[c[k - 1] := m0[c[k - 1]].(next := None)], m, c[..k], k, if k < |c| then 0 - m0[c[k]].totLen else 0)
  }

  lemma FrontTotal(m0: seq<Pbuf>, m: seq<Pbuf>, p: Option<nat>, c: seq<nat>, k: nat, j: nat)
    requires Packet(m0, p, c) && Fronted(m0, m, c, k) && j < k
    ensures TotalAt(m, c[..k], j)
  {
    var d := c[..k];
    assert TotalAt(m0, c, j) && d[j] == c[j] && d[j] in d[..k];
    Prefix(m0, c, j, k);
    assert Pieces(m, d[j..]) == Pieces(m0, d[j..]);
    if k < |c| { assert TotalAt(m0, c, k); }
    hide Packet, Elsewhere, Concat;
    if k < |c| {
      SubMod(|Flat(m0, d[j..])|, |Flat(m0, c[k..])|);
    }
  }

  lemma SubMod(a: nat, b: nat)
    ensures ((a + b) % M16 - b % M16) % M16 == a % M16
  {
  }

  lemma FrontAndRest(m0: seq<Pbuf>, m: seq<Pbuf>, p: Option<nat>, c: seq<nat>, k: nat)
    requires Packet(m0, p, c) && Fronted(m0, m, c, k)
    ensures Packet(m, p, c[..k]) && Packet(m, At(c, k), c[k..])
    ensures Flat(m, c[..k]) == Flat(m0, c[..k]) && Flat(m, c[..k]) + Flat(m, c[k..]) == Flat(m0, c)
  {
    FrontLinks(m0, m, p, c, k);
    forall j: nat | j < k ensures TotalAt(m, c[..k], j) { FrontTotal(m0, m, p, c, k, j); }
    if k < |c| { ChainTail(m0, p, c, k); }
    SplitFlat(m0, c, k);
    FrontPieces(m0, m, c, k);
    RestUntouched(m0, m, p, c, k);
    SamePacket(m0, m, At(c, k), c[k..]);
  }

  lemma FrontLinks(m0: seq<Pbuf>, m: seq<Pbuf>, p: Option<nat>, c: seq<nat>, k: nat)
    requires IsChain(m0, p, c) && Fronted(m0, m, c, k)
    ensures IsChain(m, p, c[..k])
  {
    var d := c[..k];
    assert d[..k] == d;
    forall j | 0 <= j < k ensures d[j] < |m| && Linked(m, d, j) {
      assert Linked(m0, c, j) && d[j] in d[..k];
    }
  }

  lemma FrontPieces(m0: seq<Pbuf>, m: seq<Pbuf>, c: seq<nat>, k: nat)
    requires Fronted(m0, m, c, k)
    ensures Flat(m, c[..k]) == Flat(m0, c[..k]) && Pieces(m0, c)[..k] == Pieces(m0, c[..k])
  {
    assert Pieces(m, c[..k]) == Pieces(m0, c[..k]);
  }

  lemma RestUntouched(m0: seq<Pbuf>, m: seq<Pbuf>, p: Option<nat>, c: seq<nat>, k: nat)
    requires IsChain(m0, p, c) && Fronted(m0, m, c, k)
    ensures SameOn(m0, m, c[k..])
  {
    forall i | 0 <= i < |c| - k ensures c[k..][i] !in c[..k][..k] && c[k..][i] != c[k - 1] {
      assert c[k..][i] == c[k + i] && c[..k][..k] == c[..k];
    }
  }

  /** pbuf_split_64k: the longest front shorter than 64K is cut off; returns the rest. */
  method Split64k(s: Memory, p: Option<nat>, ghost c: seq<nat>, ghost h: multiset<nat>) returns (rest: Option<nat>, ghost k: nat)
    requires Packet(s.mem, p, c) && Counted(s.mem, h)
    modifies s
    ensures k <= |c| && rest == At(c, k) && Sized(s.mem, p, c[..k]) && Packet(s.mem, rest, c[k..])
    ensures Flat(s.mem, c[..k]) + Flat(s.mem, c[k..]) == Flat(old(s.mem), c)
    ensures rest.Some? ==> M16 <= |Flat(s.mem, c[..k])| + |old(s.mem)[c[k]].data|
    ensures Counted(s.mem, h + Handle(rest)) && Elsewhere(old(s.mem), s.mem, c)
  {
    hide Counted, Flat, Fronted, Retotalled, Elsewhere;
    ghost var m0 := s.mem;
    SplitStart(m0, p, c, h);
    if p.None? || s.mem[p.value].next.None? {
      return None, |c|;
    }
    var front, i, r := |s.mem[p.value].data|, p.value, s.mem[p.value].next;
    k := 1;
    hide Packet;
    while r.Some? && (front + |s.mem[r.value].data|) % M16 >= front
      invariant s.mem == m0
      invariant 0 < k <= |c| && i == c[k - 1] && r == At(c, k) && |Flat(m0, c[..k])| == front < M16
      invariant r.Some? ==> r.value < |m0| && |m0[r.value].data| < M16
      decreases |c| - k
    {
      FrontGrows(m0, p, c, k);
      front := front + |s.mem[r.value].data|;
      i, r := r.value, s.mem[r.value].next;
      k := k + 1;
    }
    PacketIsChain(m0, p, c);
    CutLink(m0, p, c, k, h);
    s.mem := s.mem[i := s.mem[i].(next := None)];
    if r.Some? {
      TakeOff(s, p, c[..k], s.mem[r.value].totLen, h + Handle(r));
    }
    rest := r;
    SplitEnd(m0, s.mem, p, c, k);
    FrontAndRest(m0, s.mem, p, c, k);
  }

  /** The loop of pbuf_split_64k over the front */
  method TakeOff(s: Memory, p: Option<nat>, ghost c: seq<nat>, d: nat, ghost h: multiset<nat>)
    requires IsChain(s.mem, p, c) && Counted(s.mem, h)
    modifies s
    ensures Retotalled(old(s.mem), s.mem, c, |c|, 0 - d) && Counted(s.mem, h)
  {
    ghost var m0 := s.mem;
    NothingRetotalled(m0, c, 0 - d);
    hide Counted, Retotalled;
    var i := p;
    ghost var k: nat := 0;
    assert p == At(c, 0);
    while i.Some?
      invariant k <= |c| && i == At(c, k) && Retotalled(m0, s.mem, c, k, 0 - d) && Counted(s.mem, h)
      decreases |c| - k
    {
      RetotalNext(m0, s.mem, p, c, k, 0 - d, h);
      var next := s.mem[i.value].next;
      s.mem := s.mem[i.value := Added(s.mem[i.value], 0 - d)];
      i, k := next, k + 1;
    }
  }

  lemma SplitStart(m: seq<Pbuf>, p: Option<nat>, c: seq<nat>, h: multiset<nat>)
    requires Packet(m, p, c)
    ensures p == At(c, 0) && At(c, |c|) == None && c[..|c|] == c && h + Handle(None) == h
    ensures c != [] ==> c[0] < |m| && m[c[0]].next == At(c, 1) && |m[c[0]].data| < M16 && Flat(m, c[..1]) == m[c[0]].data
    ensures 1 < |c| ==> c[1] < |m| && |m[c[1]].data| < M16
    ensures Elsewhere(m, m, c)
    ensures |c| <= 1 ==> Sized(m, p, c[..|c|]) && Packet(m, None, c[|c|..]) && Flat(m, c[..|c|]) + Flat(m, c[|c|..]) == Flat(m, c)
  {
    if c != [] {
      assert Linked(m, c, 0) && TotalAt(m, c, 0);
      assert Pieces(m, c[..1]) == [m[c[0]].data];
      ConcatOne(m[c[0]].data);
    }
    if 1 < |c| { assert TotalAt(m, c, 1); }
  }

  lemma FrontGrows(m: seq<Pbuf>, p: Option<nat>, c: seq<nat>, k: nat)
    requires Packet(m, p, c) && k < |c|
    ensures c[k] < |m| && m[c[k]].next == At(c, k + 1)
    ensures |Flat(m, c[..k + 1])| == |Flat(m, c[..k])| + |m[c[k]].data|
    ensures k + 1 < |c| ==> c[k + 1] < |m| && |m[c[k + 1]].data| < M16
  {
    assert Linked(m, c, k);
    if k + 1 < |c| { assert TotalAt(m, c, k + 1); }
    assert Pieces(m, c[..k + 1]) == Pieces(m, c[..k]) + [m[c[k]].data];
    ConcatAppend(Pieces(m, c[..k]), [m[c[k]].data]);
    ConcatOne(m[c[k]].data);
  }

  /** Without a rest the lengths were right already. */
  lemma SplitEnd(m0: seq<Pbuf>, m: seq<Pbuf>, p: Option<nat>, c: seq<nat>, k: nat)
    requires Packet(m0, p, c) && 0 < k <= |c| && c[k - 1] < |m0|
    requires var m1 := m0[c[k - 1] := m0[c[k - 1]].(next := None)];
      if k < |c| then c[k] < |m0| && Retotalled(m1, m, c[..k], k, 0 - m0[c[k]].totLen) else m == m1
    ensures Fronted(m0, m, c, k) && Elsewhere(m0, m, c)
  {
    hide Flat;
    if k == |c| {
      assert c[..k] == c;
      forall q | 0 <= q < |m| && q in c[..k][..k] ensures m[q] == Added(m[q], 0) {
        var i: nat :| i < k && c[i] == q;
        assert TotalAt(m0, c, i);
      }
    }
  }

  // ---------- pbuf_realloc ----------

  /** The buffers before k have the shrinkage taken off their tot_len, and buffer k keeps rem bytes and is the last. */
  ghost predicate Shrunk(m0: seq<Pbuf>, m: seq<Pbuf>, c: seq<nat>, k: nat, rem: nat, d: int) {
    && k < |c| && |m| == |m0| && (forall i :: 0 <= i < |c| ==> c[i] < |m0|) && rem <= |m0[c[k]].data|
    && (forall i :: 0 <= i < k ==> m[c[i]] == Added(m0[c[i]], d))
    && m[c[k]] == m0[c[k]].(data := m0[c[k]].data[..rem], totLen := rem, next := None) && Elsewhere(m0, m, c)
  }

  lemma ShrunkFlat(m0: seq<Pbuf>, m: seq<Pbuf>, c: seq<nat>, k: nat, rem: nat, d: int)
    requires Shrunk(m0, m, c, k, rem, d)
    ensures Position(Pieces(m0, c), k, rem) <= |Flat(m0, c)|
    ensures Flat(m, c[..k + 1]) == Flat(m0, c)[..Position(Pieces(m0, c), k, rem)]
  {
    var s, last := Pieces(m0, c), m[c[k]].data;
    assert Pieces(m, c[..k + 1]) == s[..k] + [last];
    ConcatAppend(s[..k], [last]);
    ConcatOne(last);
    ConcatAt(s, k);
  }

  lemma ShrunkTotal(m0: seq<Pbuf>, m: seq<Pbuf>, p: nat, c: seq<nat>, k: nat, rem: nat, newLen: nat, j: nat)
    requires Packet(m0, Some(p), c) && Shrunk(m0, m, c, k, rem, newLen - m0[p].totLen)
    requires Position(Pieces(m0, c), k, rem) == newLen && j <= k
    ensures TotalAt(m, c[..k + 1], j)
  {
    hide Elsewhere;
    var d := c[..k + 1];
    assert TotalAt(m0, c, 0) && TotalAt(m0, c, j) && c[0..] == c && d[j] == c[j];
    ShrunkFlat(m0, m, c, k, rem, newLen - m0[p].totLen);
    SplitFlat(m, d, j);
    SplitFlat(m0, c, j);
    assert Pieces(m, d)[..j] == Pieces(m0, c)[..j];
    hide Flat, Packet, Concat;
    if j < k {
      ShrunkMod(|Flat(m0, c)|, |Flat(m0, c[j..])|, newLen);
    }
  }

  lemma ShrunkMod(all: nat, rest: nat, newLen: nat)
    ensures (rest % M16 + (newLen - all % M16)) % M16 == (rest + newLen - all) % M16
  {
  }

  lemma ShrunkPacket(m0: seq<Pbuf>, m: seq<Pbuf>, p: nat, c: seq<nat>, k: nat, rem: nat, newLen: nat)
    requires Packet(m0, Some(p), c) && Shrunk(m0, m, c, k, rem, newLen - m0[p].totLen)
    requires Position(Pieces(m0, c), k, rem) == newLen
    ensures newLen <= |Flat(m0, c)| && Flat(m, c[..k + 1]) == Flat(m0, c)[..newLen]
    ensures Packet(m, Some(p), c[..k + 1]) && Elsewhere(m0, m, c)
  {
    ShrunkFlat(m0, m, c, k, rem, newLen - m0[p].totLen);
    var d := c[..k + 1];
    forall j: nat | j < |d| ensures Linked(m, d, j) && TotalAt(m, d, j) {
      assert Linked(m0, c, j);
      ShrunkTotal(m0, m, p, c, k, rem, newLen, j);
    }
  }

  /** pbuf_realloc: keep the first newLen bytes. (A chain of 64K or more has a tot_len below its length.) */
  method Realloc(s: Memory, p: nat, newLen: nat, ghost c: seq<nat>, ghost h: multiset<nat>) returns (ghost k: nat)
    requires Packet(s.mem, Some(p), c) && Counted(s.mem, h) && |c| <= 0x100 && p < |s.mem|
    modifies s
    ensures k <= |c| && Packet(s.mem, Some(p), c[..k]) && Counted(s.mem, h) && Elsewhere(old(s.mem), s.mem, c)
    ensures old(s.mem)[p].totLen <= newLen ==> s.mem == old(s.mem) && k == |c|
    ensures newLen < old(s.mem)[p].totLen ==>
      newLen <= |Flat(old(s.mem), c)| && Flat(s.mem, c[..k]) == Flat(old(s.mem), c)[..newLen]
  {
    hide Counted, Retotalled, Flat, Shrunk, FreedRun, Position;
    ghost var m0 := s.mem;
    if newLen >= s.mem[p].totLen {
      assert c[..|c|] == c;
      return |c|;
    }
    var shrink := s.mem[p].totLen - newLen;
    ReallocStart(m0, p, c, newLen);
    assert newLen < |Flat(m0, c)|;
    NothingRetotalled(m0, c, 0 - shrink);
    PacketIsChain(m0, Some(p), c);
    hide Packet, IsChain;
    var rem: nat, q: nat := newLen, p;
    k := 0;
    while rem > |s.mem[q].data|
      invariant k < |c| && q == c[k] && Retotalled(m0, s.mem, c, k, 0 - shrink) && Counted(s.mem, h)
      invariant q < |s.mem| == |m0| && Position(Pieces(m0, c), k, rem) == newLen
      decreases |c| - k
    {
      RetotalNext(m0, s.mem, Some(p), c, k, 0 - shrink, h);
      ReallocNext(m0, p, c, k, rem, newLen);
      rem := rem - |s.mem[q].data|;
      var next := s.mem[q].next;
      s.mem := s.mem[q := Added(s.mem[q], 0 - shrink)];
      q := next.value;
      k := k + 1;
    }
    RetotalNext(m0, s.mem, Some(p), c, k, 0 - shrink, h);
    ghost var m1 := s.mem;
    s.mem := s.mem[q := s.mem[q].(data := s.mem[q].data[..rem], totLen := rem)];
    ghost var m2 := s.mem;
    ReallocTail(m0, m1, p, c, k, rem, 0 - shrink, h);
    var next := s.mem[q].next;
    var freed: nat := 0;
    if next.Some? {
      freed := Free(s, next.value, c[k + 1..]);
    }
    ghost var m3 := s.mem;
    ReallocCounts(m2, m3, q, c[k + 1..], freed, h);
    s.mem := s.mem[q := s.mem[q].(next := None)];
    ReallocEnd(m0, m1, m3, p, c, k, rem, 0 - shrink, freed);
    ShrunkPacket(m0, s.mem, p, c, k, rem, newLen);
    k := k + 1;
  }

  lemma ReallocStart(m: seq<Pbuf>, p: nat, c: seq<nat>, newLen: nat)
    requires Packet(m, Some(p), c) && p < |m| && newLen < m[p].totLen
    ensures c != [] && c[0] == p && newLen < |Flat(m, c)| && Position(Pieces(m, c), 0, newLen) == newLen
  {
    assert TotalAt(m, c, 0) && c[0..] == c;
    EmptyPosition(Pieces(m, c), newLen);
  }

  lemma ReallocNext(m: seq<Pbuf>, p: nat, c: seq<nat>, k: nat, rem: nat, newLen: nat)
    requires IsChain(m, Some(p), c) && k < |c| && newLen < |Flat(m, c)|
    requires Position(Pieces(m, c), k, rem) == newLen && |m[c[k]].data| < rem
    ensures k + 1 < |c| && Position(Pieces(m, c), k + 1, rem - |m[c[k]].data|) == newLen
    ensures c[k + 1] < |m| && m[c[k]].next == Some(c[k + 1])
  {
    assert Linked(m, c, k);
    NextPiece(Pieces(m, c), k);
    AtEnd(Pieces(m, c));
  }

  /** The buffers behind the new last one are still a chain to free. */
  lemma ReallocTail(m0: seq<Pbuf>, m1: seq<Pbuf>, p: nat, c: seq<nat>, k: nat, rem: nat, d: int, h: multiset<nat>)
    requires IsChain(m0, Some(p), c) && k < |c| && Retotalled(m0, m1, c, k, d) && Counted(m1, h)
    requires c[k] < |m1| && rem <= |m1[c[k]].data|
    ensures var m2 := m1[c[k] := m1[c[k]].(data := m1[c[k]].data[..rem], totLen := rem)];
      && Counted(m2, h) && m2[c[k]].live && m2[c[k]].next == At(c, k + 1) && c[k] !in c[k + 1..]
      && (k + 1 < |c| ==> IsChain(m2, Some(c[k + 1]), c[k + 1..]) && Referenced(m2, c[k + 1..]))
  {
    var m2 := m1[c[k] := m1[c[k]].(data := m1[c[k]].data[..rem], totLen := rem)];
    Recount(m1, h, c[k], m2[c[k]]);
    assert Linked(m0, c, k);
    if k + 1 < |c| {
      LinksTail(m0, Some(p), c, k + 1);
      TailApart(c, k);
      ChainUntouched(m0, m2, Some(c[k + 1]), c[k + 1..]);
      assert m2[c[k]].live && m2[c[k]].next == Some(c[k + 1]);
      ChainReferenced(m2, c[k + 1], c[k + 1..], h);
    }
  }

  lemma TailApart(c: seq<nat>, k: nat)
    requires k < |c| && forall i, j :: 0 <= i < j < |c| ==> c[i] != c[j]
    ensures c[k] !in c[k + 1..] && forall q :: q in c[k + 1..] ==> q !in c[..k] && q !in c[..k + 1]
  {
  }

  lemma ChainUntouched(m: seq<Pbuf>, m': seq<Pbuf>, p: Option<nat>, c: seq<nat>)
    requires IsChain(m, p, c) && |m| == |m'| && forall i :: 0 <= i < |c| ==> m'[c[i]] == m[c[i]]
    ensures IsChain(m', p, c)
  {
    forall i | 0 <= i < |c| ensures Linked(m', c, i) { assert Linked(m, c, i); }
  }

  /** Freeing before unlinking comes to the same as unlinking before freeing. */
  lemma ReallocCounts(m: seq<Pbuf>, m': seq<Pbuf>, q: nat, c: seq<nat>, freed: nat, h: multiset<nat>)
    requires Counted(m, h) && q < |m| && m[q].live && q !in c && |m'| == |m|
    requires if m[q].next.Some? then IsChain(m, m[q].next, c) && FreedRun(m, m', c, freed) else m' == m
    ensures Counted(m'[q := m'[q].(next := None)], h)
  {
    if m[q].next.Some? {
      var n := m[q].next.value;
      Relink(m, h, q, None);
      var u, u' := m[q := m[q].(next := None)], m'[q := m'[q].(next := None)];
      assert forall i :: 0 <= i < |c| ==> c[i] in c;
      ChainUntouched(m, u, Some(n), c);
      assert m'[q] == m[q] by { assert forall x :: x in c[..freed] ==> x in c; }
      assert FreedRun(u, u', c, freed);
      var held := h + Handle(Some(n)) - Handle(None);
      assert held - multiset{n} == h && n in held;
      FreeKeepsCounts(u, u', n, c, freed, held);
    } else {
      assert m'[q := m'[q].(next := None)] == m;
    }
  }

  lemma ReallocEnd(m0: seq<Pbuf>, m1: seq<Pbuf>, m3: seq<Pbuf>, p: nat, c: seq<nat>, k: nat, rem: nat, d: int, freed: nat)
    requires IsChain(m0, Some(p), c) && k < |c| && Retotalled(m0, m1, c, k, d)
    requires c[k] < |m1| && rem <= |m1[c[k]].data|
    requires var m2 := m1[c[k] := m1[c[k]].(data := m1[c[k]].data[..rem], totLen := rem)];
      if k + 1 < |c| then FreedRun(m2, m3, c[k + 1..], freed) else m3 == m2
    ensures |m3| == |m1| && Shrunk(m0, m3[c[k] := m3[c[k]].(next := None)], c, k, rem, d)
  {
    TailApart(c, k);
    assert c[k] !in c[..k];
    forall i | 0 <= i <= k ensures c[i] !in c[k + 1..] && c[i] !in c[k + 1..][..if k + 1 < |c| then freed else 0] {
      assert c[i] in c[..k + 1];
    }
  }
}
