/** Reference counts of packet buffers: every count is the number of links and of outside
    handles to the buffer, and freeing takes away exactly what nothing refers to any more. */
module PbufRefs {
  import opened PbufChain
  import opened PbufMemory
  import opened Prelude

  /** 1 if the buffer b links to p. */
  function LinksTo(b: Pbuf, p: nat): nat { if b.live && b.next == Some(p) then 1 else 0 }

  /** How many live buffers link to p. */
  function Links(m: seq<Pbuf>, p: nat): nat {
    if m == [] then 0 else Links(m[..|m| - 1], p) + LinksTo(m[|m| - 1], p)
  }

  ghost predicate CountedAt(m: seq<Pbuf>, h: multiset<nat>, p: nat)
    requires p < |m|
  {
    m[p].live ==> m[p].ref == Links(m, p) + h[p] && (m[p].next.Some? ==> m[p].next.value < |m| && m[m[p].next.value].live)
  }

  /** Every count is right, where h are the handles held outside; nothing refers to a dead buffer. */
  ghost predicate Counted(m: seq<Pbuf>, h: multiset<nat>) {
    && (forall p :: 0 <= p < |m| ==> CountedAt(m, h, p))
    && (forall p :: p in h ==> p < |m| && m[p].live)
  }

  lemma {:induction false} LinksUpdate(m: seq<Pbuf>, i: nat, b: Pbuf, p: nat)
    requires i < |m|
    ensures Links(m[i := b], p) + LinksTo(m[i], p) == Links(m, p) + LinksTo(b, p)
  {
    var m' := m[i := b];
    if i == |m| - 1 {
      assert m'[..|m| - 1] == m[..|m| - 1];
    } else {
      LinksUpdate(m[..|m| - 1], i, b, p);
      assert m'[..|m| - 1] == m[..|m| - 1][i := b];
    }
  }

  lemma {:induction false} LinkCounts(m: seq<Pbuf>, q: nat, p: nat)
    requires q < |m| && m[q].live && m[q].next == Some(p)
    ensures 0 < Links(m, p)
  {
    if q < |m| - 1 { LinkCounts(m[..|m| - 1], q, p); }
  }

  /** A buffer that something refers to has a count. */
  lemma HasCount(m: seq<Pbuf>, h: multiset<nat>, p: nat)
    requires Counted(m, h) && (p in h || exists q :: 0 <= q < |m| && m[q].live && m[q].next == Some(p))
    ensures p < |m| && m[p].live && 0 < m[p].ref
  {
    if p !in h {
      var q :| 0 <= q < |m| && m[q].live && m[q].next == Some(p);
      assert CountedAt(m, h, q);
      LinkCounts(m, q, p);
    }
    assert CountedAt(m, h, p);
  }

  function Handle(p: Option<nat>): multiset<nat> { if p.Some? then multiset{p.value} else multiset{} }

  /** Changing the link of one buffer moves what it refers to between links and handles. */
  lemma Relink(m: seq<Pbuf>, h: multiset<nat>, p: nat, next: Option<nat>)
    requires Counted(m, h) && p < |m| && m[p].live && (next.Some? ==> next.value in h + Handle(m[p].next))
    ensures Counted(m[p := m[p].(next := next)], h + Handle(m[p].next) - Handle(next))
  {
    var m' := m[p := m[p].(next := next)];
    var h' := h + Handle(m[p].next) - Handle(next);
    assert CountedAt(m, h, p);
    forall q | 0 <= q < |m| ensures CountedAt(m', h', q) {
      assert CountedAt(m, h, q);
      LinksUpdate(m, p, m'[p], q);
    }
  }

  /** Other fields do not matter. */
  lemma Recount(m: seq<Pbuf>, h: multiset<nat>, p: nat, b: Pbuf)
    requires Counted(m, h) && p < |m| && b.live == m[p].live && b.next == m[p].next && b.ref == m[p].ref
    ensures Counted(m[p := b], h)
  {
    var m' := m[p := b];
    forall q | 0 <= q < |m| ensures CountedAt(m', h, q) {
      assert CountedAt(m, h, q);
      LinksUpdate(m, p, b, q);
    }
  }

  // ---------- Freeing ----------

  function Dead(b: Pbuf): Pbuf { b.(live := false, ref := 0) }

  /** Giving up the last reference: the handle moves on to the next buffer. */
  lemma Killed(m: seq<Pbuf>, h: multiset<nat>, p: nat)
    requires Counted(m, h) && p in h && m[p].ref == 1
    ensures Counted(m[p := Dead(m[p])], h - multiset{p} + Handle(m[p].next))
  {
    var m' := m[p := Dead(m[p])];
    var h' := h - multiset{p} + Handle(m[p].next);
    assert CountedAt(m, h, p);
    assert Links(m, p) == 0 && h[p] == 1;
    assert m[p].next != Some(p) by { if m[p].next == Some(p) { LinkCounts(m, p, p); } }
    forall q | 0 <= q < |m| ensures CountedAt(m', h', q) {
      assert CountedAt(m, h, q);
      LinksUpdate(m, p, m'[p], q);
      if q != p && m[q].live && m[q].next == Some(p) { LinkCounts(m, q, p); }
    }
  }

  /** Giving up one reference of several. */
  lemma Dropped(m: seq<Pbuf>, h: multiset<nat>, p: nat)
    requires Counted(m, h) && p in h && 1 < m[p].ref
    ensures Counted(m[p := m[p].(ref := m[p].ref - 1)], h - multiset{p})
  {
    var m' := m[p := m[p].(ref := m[p].ref - 1)];
    assert CountedAt(m, h, p);
    forall q | 0 <= q < |m| ensures CountedAt(m', h - multiset{p}, q) {
      assert CountedAt(m, h, q);
      LinksUpdate(m, p, m'[p], q);
    }
  }

  /** Exactly the longest head run of buffers with count 1 is deallocated, and the buffer behind
      it loses one reference. */
  ghost predicate FreedRun(m: seq<Pbuf>, m': seq<Pbuf>, c: seq<nat>, k: nat)
  {
    && k <= |c| && (forall i :: 0 <= i < |c| ==> c[i] < |m|)
    && (forall i :: 0 <= i < k ==> m[c[i]].ref == 1) && (k < |c| ==> m[c[k]].ref != 1)
    && |m'| == |m| && forall q :: 0 <= q < |m| ==> m'[q] == AfterFree(m, c, k, q)
  }

  function AfterFree(m: seq<Pbuf>, c: seq<nat>, k: nat, q: nat): Pbuf
    requires k <= |c| && q < |m|
  {
    if q in c[..k] then Dead(m[q])
    else if k < |c| && q == c[k] then m[q].(ref := if m[q].ref == 0 then 0 else m[q].ref - 1)
    else m[q]
  }

  /** Something refers to every buffer of the chain. */
  ghost predicate Referenced(m: seq<Pbuf>, c: seq<nat>) {
    forall i :: 0 <= i < |c| ==> c[i] < |m| && 0 < m[c[i]].ref
  }

  lemma {:induction false} ChainReferenced(m: seq<Pbuf>, p: nat, c: seq<nat>, h: multiset<nat>)
    requires IsChain(m, Some(p), c) && Counted(m, h)
    requires p in h || exists q :: 0 <= q < |m| && m[q].live && m[q].next == Some(p)
    ensures Referenced(m, c)
  {
    forall i | 0 <= i < |c| ensures 0 < m[c[i]].ref {
      if i == 0 {
        HasCount(m, h, p);
      } else {
        assert Linked(m, c, i - 1);
        HasCount(m, h, c[i]);
      }
    }
  }

  /** pbuf_free: one reference to p is given up, and with it whatever nothing else refers to.
      Returns how many buffers were deallocated. */
  method Free(s: Memory, p: nat, ghost c: seq<nat>) returns (count: nat)
    requires IsChain(s.mem, Some(p), c) && Referenced(s.mem, c) && |c| < 0x100
    modifies s
    ensures FreedRun(old(s.mem), s.mem, c, count) && |s.mem| == |old(s.mem)|
  {
    hide IsChain, FreedRun, Freeing, At, Referenced;
    ghost var m0 := s.mem;
    var q := Some(p);
    count := 0;
    FreeStart(m0, p, c);
    while q.Some?
      invariant Freeing(m0, s.mem, c, count) && q == At(c, count) && |s.mem| == |m0|
      decreases |c| - count
    {
      FreeInside(m0, s.mem, p, c, count);
      var b := s.mem[q.value];
      if b.ref != 1 {
        s.mem := s.mem[q.value := b.(ref := b.ref - 1)];
        return;
      }
      s.mem := s.mem[q.value := Dead(b)];
      q, count := b.next, count + 1;
    }
    FreeEnd(m0, s.mem, c, count);
  }

  /** The buffers before k are deallocated. */
  ghost predicate Freeing(m0: seq<Pbuf>, m: seq<Pbuf>, c: seq<nat>, k: nat) {
    && k <= |c| && (forall i :: 0 <= i < |c| ==> c[i] < |m0|) && (forall i :: 0 <= i < k ==> m0[c[i]].ref == 1)
    && |m| == |m0| && forall q :: 0 <= q < |m| ==> m[q] == if q in c[..k] then Dead(m0[q]) else m0[q]
  }

  lemma FreeStart(m: seq<Pbuf>, p: nat, c: seq<nat>)
    requires IsChain(m, Some(p), c)
    ensures Freeing(m, m, c, 0) && At(c, 0) == Some(p)
  {
  }

  lemma FreeInside(m0: seq<Pbuf>, m: seq<Pbuf>, p: nat, c: seq<nat>, k: nat)
    requires IsChain(m0, Some(p), c) && Referenced(m0, c) && Freeing(m0, m, c, k) && At(c, k).Some?
    ensures k < |c| && At(c, k) == Some(c[k]) && c[k] < |m| && m[c[k]] == m0[c[k]] && 0 < m[c[k]].ref
    ensures m[c[k]].next == At(c, k + 1)
    ensures m[c[k]].ref == 1 ==> Freeing(m0, m[c[k] := Dead(m[c[k]])], c, k + 1)
    ensures m[c[k]].ref != 1 ==> FreedRun(m0, m[c[k] := m[c[k]].(ref := m[c[k]].ref - 1)], c, k)
  {
    assert Linked(m0, c, k);
    assert c[k] !in c[..k];
    assert c[..k + 1] == c[..k] + [c[k]];
  }

  lemma FreeEnd(m0: seq<Pbuf>, m: seq<Pbuf>, c: seq<nat>, k: nat)
    requires Freeing(m0, m, c, k) && At(c, k).None?
    ensures FreedRun(m0, m, c, k)
  {
  }

  /** Giving up a handle on p by pbuf_free keeps all counts right. */
  lemma FreeKeepsCounts(m: seq<Pbuf>, m': seq<Pbuf>, p: nat, c: seq<nat>, k: nat, h: multiset<nat>)
    requires IsChain(m, Some(p), c) && Counted(m, h) && p in h && FreedRun(m, m', c, k)
    ensures Counted(m', h - multiset{p})
  {
    ChainReferenced(m, p, c, h);
    var m1 := KilledRun(m, p, c, k, h);
    var held := h - multiset{p} + Handle(At(c, k));
    if k < |c| {
      FreeInside(m, m1, p, c, k);
      Dropped(m1, held, c[k]);
      assert held - multiset{c[k]} == h - multiset{p};
      assert m' == m1[c[k] := m1[c[k]].(ref := m1[c[k]].ref - 1)];
    } else {
      assert held == h - multiset{p};
      assert m' == m1;
    }
  }

  /** After k deallocations the handle is on buffer k. */
  lemma {:induction false} KilledRun(m: seq<Pbuf>, p: nat, c: seq<nat>, k: nat, h: multiset<nat>) returns (m': seq<Pbuf>)
    requires IsChain(m, Some(p), c) && Counted(m, h) && p in h && Referenced(m, c)
    requires k <= |c| && forall i :: 0 <= i < k ==> m[c[i]].ref == 1
    ensures Freeing(m, m', c, k) && Counted(m', h - multiset{p} + Handle(At(c, k)))
  {
    if k == 0 {
      m' := m;
      assert h - multiset{p} + Handle(At(c, 0)) == h;
    } else {
      var m1 := KilledRun(m, p, c, k - 1, h);
      hide Counted, IsChain;
      FreeInside(m, m1, p, c, k - 1);
      var held := h - multiset{p} + Handle(At(c, k - 1));
      Killed(m1, held, c[k - 1]);
      m' := m1[c[k - 1] := Dead(m1[c[k - 1]])];
      assert held - multiset{c[k - 1]} + Handle(At(c, k)) == h - multiset{p} + Handle(At(c, k));
    }
  }

  /** pbuf_ref */
  method Ref(s: Memory, p: nat, ghost h: multiset<nat>)
    requires Counted(s.mem, h) && p < |s.mem| && s.mem[p].live && s.mem[p].ref < 0xFF
    modifies s
    ensures s.mem == old(s.mem)[p := old(s.mem)[p].(ref := old(s.mem)[p].ref + 1)]
    ensures Counted(s.mem, h + multiset{p})
  {
    ghost var m := s.mem;
    s.mem := s.mem[p := s.mem[p].(ref := s.mem[p].ref + 1)];
    forall q | 0 <= q < |m| ensures CountedAt(s.mem, h + multiset{p}, q) {
      assert CountedAt(m, h, q);
      LinksUpdate(m, p, s.mem[p], q);
    }
  }
}
