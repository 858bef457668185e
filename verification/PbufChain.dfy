/** Chains of packet buffers as values: the memory that holds the buffers, the flat bytes a
    chain stands for, and what writing into one buffer does to them. */
module PbufChain {
  import opened Prelude

  /** struct pbuf. `data` are the len bytes behind the payload pointer; a dead one is deallocated. */
  datatype Pbuf = Pbuf(live: bool, next: Option<nat>, data: seq<byte>, totLen: nat, ref: nat)

  // ---------- Pieces of a byte sequence ----------

  function Concat(s: seq<seq<byte>>): seq<byte> {
    if s == [] then [] else s[0] + Concat(s[1..])
  }

  lemma {:induction false} ConcatAppend(a: seq<seq<byte>>, b: seq<seq<byte>>)
    ensures Concat(a + b) == Concat(a) + Concat(b)
  {
    if a == [] {
      assert a + b == b;
    } else {
      ConcatAppend(a[1..], b);
      assert (a + b)[1..] == a[1..] + b;
      Associates(a[0], Concat(a[1..]), Concat(b));
    }
  }

  lemma Associates(a: seq<byte>, b: seq<byte>, c: seq<byte>)
    ensures a + (b + c) == a + b + c
  {
  }

  lemma ConcatOne(x: seq<byte>)
    ensures Concat([x]) == x
  {
    assert [x][1..] == [];
  }

  lemma ConcatAt(s: seq<seq<byte>>, i: nat)
    requires i < |s|
    ensures Concat(s) == Concat(s[..i]) + s[i] + Concat(s[i + 1..])
    ensures Concat(s[i..]) == s[i] + Concat(s[i + 1..])
    ensures Concat(s[..i + 1]) == Concat(s[..i]) + s[i]
  {
    Divide(s, i);
    hide Concat;
    ConcatOne(s[i]);
    ConcatAppend([s[i]], s[i + 1..]);
    ConcatAppend(s[..i], [s[i]]);
    ConcatAppend(s[..i + 1], s[i + 1..]);
  }

  lemma Divide(s: seq<seq<byte>>, i: nat)
    requires i < |s|
    ensures s[i..] == [s[i]] + s[i + 1..] && s[..i + 1] == s[..i] + [s[i]] && s == s[..i + 1] + s[i + 1..]
  {
  }

  /** The flat position of offset o in piece i. */
  function Position(s: seq<seq<byte>>, i: nat, o: nat): nat
    requires i <= |s|
  {
    |Concat(s[..i])| + o
  }

  lemma EmptyPosition(s: seq<seq<byte>>, o: nat)
    ensures Position(s, 0, o) == o
  {
    assert s[..0] == [];
  }

  lemma NextPiece(s: seq<seq<byte>>, i: nat)
    requires i < |s|
    ensures Position(s, i, |s[i]|) == Position(s, i + 1, 0)
  {
    ConcatAt(s, i);
  }

  lemma AtEnd(s: seq<seq<byte>>)
    ensures Position(s, |s|, 0) == |Concat(s)|
  {
    assert s[..|s|] == s;
  }

  lemma PieceInside(s: seq<seq<byte>>, i: nat, o: nat)
    requires i < |s| && o < |s[i]|
    ensures Position(s, i, o) < |Concat(s)| && Concat(s)[Position(s, i, o)] == s[i][o]
  {
    ConcatAt(s, i);
  }

  lemma SamePositions(a: seq<seq<byte>>, b: seq<seq<byte>>, i: nat, o: nat)
    requires |a| == |b| && i <= |a| && forall i :: 0 <= i < |a| ==> |a[i]| == |b[i]|
    ensures Position(a, i, o) == Position(b, i, o)
  {
    SameLength(a[..i], b[..i]);
  }

  /** Reading inside one piece reads the flat sequence. */
  lemma ReadPiece(s: seq<seq<byte>>, i: nat, o: nat, n: nat)
    requires i < |s| && o + n <= |s[i]|
    ensures Position(s, i, o) + n <= |Concat(s)|
    ensures s[i][o..o + n] == Concat(s)[Position(s, i, o)..Position(s, i, o) + n]
  {
    ConcatAt(s, i);
  }

  /** Overwriting inside one piece overwrites the flat sequence at that position only. */
  lemma WritePiece(s: seq<seq<byte>>, i: nat, o: nat, bytes: seq<byte>)
    requires i < |s| && o + |bytes| <= |s[i]|
    ensures Position(s, i, o) + |bytes| <= |Concat(s)|
    ensures Concat(s[i := Splice(s[i], o, bytes)]) == Splice(Concat(s), Position(s, i, o), bytes)
  {
    hide Concat, Splice;
    var s' := s[i := Splice(s[i], o, bytes)];
    assert s'[..i] == s[..i] && s'[i + 1..] == s[i + 1..];
    ConcatAt(s, i);
    ConcatAt(s', i);
    SpliceMiddle(Concat(s[..i]), s[i], Concat(s[i + 1..]), o, bytes);
  }

  lemma SpliceMiddle(a: seq<byte>, x: seq<byte>, b: seq<byte>, o: nat, bytes: seq<byte>)
    requires o + |bytes| <= |x|
    ensures Splice(a + x + b, |a| + o, bytes) == a + Splice(x, o, bytes) + b
  {
  }

  lemma SpliceNext(s: seq<byte>, k: nat, a: seq<byte>, b: seq<byte>)
    requires k + |a| + |b| <= |s|
    ensures Splice(Splice(s, k, a), k + |a|, b) == Splice(s, k, a + b)
  {
  }

  // ---------- Chains ----------

  /** The pointer to buffer i of a chain; NULL behind its end. */
  function At(c: seq<nat>, i: nat): Option<nat> { if i < |c| then Some(c[i]) else None }

  ghost predicate Linked(m: seq<Pbuf>, c: seq<nat>, i: nat)
    requires i < |c| && c[i] < |m|
  {
    m[c[i]].live && m[c[i]].next == At(c, i + 1)
  }

  /** Following `next` from p visits exactly the live buffers c. */
  ghost predicate IsChain(m: seq<Pbuf>, p: Option<nat>, c: seq<nat>) {
    && p == At(c, 0)
    && (forall i :: 0 <= i < |c| ==> c[i] < |m|)
    && (forall i :: 0 <= i < |c| ==> Linked(m, c, i))
    && (forall i, j :: 0 <= i < j < |c| ==> c[i] != c[j])
  }

  function Pieces(m: seq<Pbuf>, c: seq<nat>): (r: seq<seq<byte>>)
    requires forall i :: 0 <= i < |c| ==> c[i] < |m|
    ensures |r| == |c| && forall i :: 0 <= i < |c| ==> r[i] == m[c[i]].data
  {
    seq(|c|, i requires 0 <= i < |c| => m[c[i]].data)
  }

  /** The bytes of a chain. */
  function Flat(m: seq<Pbuf>, c: seq<nat>): seq<byte>
    requires forall i :: 0 <= i < |c| ==> c[i] < |m|
  {
    Concat(Pieces(m, c))
  }

  const M16 := 0x10000

  /** The tot_len of buffer i is the length of the rest of the chain, modulo 16 bits. */
  ghost predicate TotalAt(m: seq<Pbuf>, c: seq<nat>, i: nat)
    requires i < |c| && forall j :: 0 <= j < |c| ==> c[j] < |m|
  {
    m[c[i]].totLen == |Flat(m, c[i..])| % M16 && |m[c[i]].data| < M16
  }

  ghost predicate Totals(m: seq<Pbuf>, c: seq<nat>)
    requires forall i :: 0 <= i < |c| ==> c[i] < |m|
  {
    forall i :: 0 <= i < |c| ==> TotalAt(m, c, i)
  }

  ghost predicate Packet(m: seq<Pbuf>, p: Option<nat>, c: seq<nat>) {
    IsChain(m, p, c) && Totals(m, c)
  }

  /** A packet whose length 16 bits can hold. */
  ghost predicate Sized(m: seq<Pbuf>, p: Option<nat>, c: seq<nat>) {
    Packet(m, p, c) && |Flat(m, c)| < M16
  }

  lemma ChainTail(m: seq<Pbuf>, p: Option<nat>, c: seq<nat>, i: nat)
    requires Packet(m, p, c) && i < |c|
    ensures Packet(m, Some(c[i]), c[i..]) && Packet(m, m[c[i]].next, c[i + 1..])
  {
    TotalsTail(m, c, i);
    if i + 1 < |c| { TotalsTail(m, c, i + 1); }
    hide Totals;
    LinksTail(m, p, c, i);
    assert Linked(m, c, i);
    if i + 1 < |c| { LinksTail(m, p, c, i + 1); }
  }

  lemma LinksTail(m: seq<Pbuf>, p: Option<nat>, c: seq<nat>, i: nat)
    requires IsChain(m, p, c) && i < |c|
    ensures IsChain(m, Some(c[i]), c[i..])
  {
    var d := c[i..];
    forall j | 0 <= j < |d| ensures Linked(m, d, j) {
      assert Linked(m, c, i + j) && At(c, i + j + 1) == At(d, j + 1);
    }
  }

  lemma TotalsTail(m: seq<Pbuf>, c: seq<nat>, i: nat)
    requires i < |c| && (forall j :: 0 <= j < |c| ==> c[j] < |m|) && Totals(m, c)
    ensures Totals(m, c[i..])
  {
    hide Flat;
    forall j: nat | j < |c[i..]| ensures TotalAt(m, c[i..], j) {
      assert TotalAt(m, c, i + j);
      TailTotal(m, c, i, j);
    }
  }

  lemma TailTotal(m: seq<Pbuf>, c: seq<nat>, i: nat, j: nat)
    requires i + j < |c| && (forall k :: 0 <= k < |c| ==> c[k] < |m|) && TotalAt(m, c, i + j)
    ensures TotalAt(m, c[i..], j)
  {
    assert c[i..][j..] == c[i + j..];
  }

  lemma FlatTail(m: seq<Pbuf>, c: seq<nat>, i: nat)
    requires i < |c| && forall j :: 0 <= j < |c| ==> c[j] < |m|
    ensures Flat(m, c[i..]) == m[c[i]].data + Flat(m, c[i + 1..])
    ensures Flat(m, c) == Concat(Pieces(m, c)[..i]) + Flat(m, c[i..])
  {
    hide Concat;
    ConcatAt(Pieces(m, c), i);
    assert Pieces(m, c)[i..] == Pieces(m, c[i..]) && Pieces(m, c)[i + 1..] == Pieces(m, c[i + 1..]);
    assert Pieces(m, c) == Pieces(m, c)[..i] + Pieces(m, c)[i..];
    ConcatAppend(Pieces(m, c)[..i], Pieces(m, c)[i..]);
  }

  ghost predicate SameButBytes(p: Pbuf, p': Pbuf) {
    |p'.data| == |p.data| && p' == p.(data := p'.data)
  }

  /** The same chain with other bytes of the same lengths in it. */
  ghost predicate SameShape(m: seq<Pbuf>, m': seq<Pbuf>) {
    && |m| == |m'|
    && forall i :: 0 <= i < |m| ==> SameButBytes(m[i], m'[i])
  }

  lemma {:induction false} SameLength(a: seq<seq<byte>>, b: seq<seq<byte>>)
    requires |a| == |b| && forall i :: 0 <= i < |a| ==> |a[i]| == |b[i]|
    ensures |Concat(a)| == |Concat(b)|
  {
    if a != [] { SameLength(a[1..], b[1..]); }
  }

  lemma SameShapePacket(m: seq<Pbuf>, m': seq<Pbuf>, p: Option<nat>, c: seq<nat>)
    requires SameShape(m, m') && Packet(m, p, c)
    ensures Packet(m', p, c) && |Flat(m', c)| == |Flat(m, c)|
  {
    SameLength(Pieces(m, c), Pieces(m', c));
    forall i: nat | i < |c| ensures Linked(m', c, i) {
      assert Linked(m, c, i) && SameButBytes(m[c[i]], m'[c[i]]);
    }
    forall i: nat | i < |c| ensures TotalAt(m', c, i) {
      assert TotalAt(m, c, i);
      SameLength(Pieces(m, c[i..]), Pieces(m', c[i..]));
    }
  }

  /** Overwriting bytes of one buffer in memory. */
  function Poked(m: seq<Pbuf>, q: nat, o: nat, bytes: seq<byte>): seq<Pbuf>
    requires q < |m| && o + |bytes| <= |m[q].data|
  {
    m[q := m[q].(data := Splice(m[q].data, o, bytes))]
  }

  lemma PokedFlat(m: seq<Pbuf>, p: Option<nat>, c: seq<nat>, i: nat, o: nat, bytes: seq<byte>)
    requires IsChain(m, p, c) && i < |c| && o + |bytes| <= |m[c[i]].data|
    ensures Position(Pieces(m, c), i, o) + |bytes| <= |Flat(m, c)|
    ensures Flat(Poked(m, c[i], o, bytes), c) == Splice(Flat(m, c), Position(Pieces(m, c), i, o), bytes)
    ensures SameShape(m, Poked(m, c[i], o, bytes))
  {
    var m' := Poked(m, c[i], o, bytes);
    WritePiece(Pieces(m, c), i, o, bytes);
    assert Pieces(m', c) == Pieces(m, c)[i := Splice(m[c[i]].data, o, bytes)];
  }
}
