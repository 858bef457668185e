/** Other contexts that free and trim while mem_malloc runs, seen as values: what they do at an unlock point, how a
    scan that they disturb ends, and when it starts again for ever. */
module HeapContexts {
  import opened Arith
  import opened HeapSpec

  // ---------- One free or trim ----------

  lemma HeldIndex(c: Config, bs: seq<Block>, p: Ptr) returns (i: nat)
    requires Tiled(c, bs) && Holds(c, bs, p)
    ensures c.header <= p.off && i == IndexOf(bs, p.off - c.header) < |bs|
    ensures bs[i] == Block(p.off - c.header, true)
  {
    var k :| 0 <= k < |bs| && bs[k].used && bs[k].start + c.header == p.off;
    i := IndexOf(bs, p.off - c.header);
    assert i <= k;
  }

  lemma ListedIndex(bs: seq<Block>, p: int)
    requires Listed(bs, p)
    ensures IndexOf(bs, p) < |bs|
  {
  }

  /** The free or trim changes something, or at least tells a mem_malloc that runs so. */
  ghost predicate Disturbs(c: Config, bs: seq<Block>, op: Op) {
    exists i :: 0 <= i < |bs| && DisturbsAt(c, bs, op, i)
  }

  ghost predicate DisturbsAt(c: Config, bs: seq<Block>, op: Op, i: nat)
    requires i < |bs|
  {
    && !op.DoMalloc? && op.p.At? && bs[i].used && bs[i].start + c.header == op.p.off
    && (op.DoTrim? ==> 0 < Rounded(c, op.n) < Data(c, bs, i))
  }

  /** It tells a mem_malloc so although it changes nothing. */
  ghost predicate Futile(c: Config, bs: seq<Block>, op: Op) {
    Disturbs(c, bs, op) && Apply(c, bs, op) == bs
  }

  lemma TrimDisturbs(c: Config, bs: seq<Block>, p: Ptr, n: nat, i: nat)
    requires Tiled(c, bs) && i < |bs| && p.At? && c.header <= p.off && bs[i] == Block(p.off - c.header, true)
    ensures Disturbs(c, bs, DoTrim(p, n)) <==> 0 < Rounded(c, n) < Data(c, bs, i)
    ensures IndexOf(bs, p.off - c.header) == i
  {
    hide Rounded;
    assert DisturbsAt(c, bs, DoTrim(p, n), i) <==> 0 < Rounded(c, n) < Data(c, bs, i);
    forall k | 0 <= k < |bs| && DisturbsAt(c, bs, DoTrim(p, n), k) ensures k == i {}
    ListedIndex(bs, bs[i].start);
  }

  lemma StartInHeap(c: Config, bs: seq<Block>, i: nat)
    requires Tiled(c, bs) && i < |bs|
    ensures 0 <= bs[i].start + c.header < c.memSize
  {
  }

  lemma TrimmedIsSame(c: Config, bs: seq<Block>, i: nat, size: nat)
    requires i < |bs| && size < Data(c, bs, i)
    ensures Trimmed(c, bs, i, size) == bs <==>
      Data(c, bs, i) < size + c.header + c.minData && (i + 1 < |bs| ==> bs[i + 1].used)
  {
    if i + 1 < |bs| && !bs[i + 1].used {
      assert Trimmed(c, bs, i, size)[i + 1].start < bs[i + 1].start;
    } else if size + c.header + c.minData <= Data(c, bs, i) {
      assert |Trimmed(c, bs, i, size)| == |bs| + 1;
    }
  }

  /** Such trims: what they would cut off is too small for a block of its own, and the next block is used. */
  lemma TrimThatOnlyDisturbs(c: Config, bs: seq<Block>, i: nat, n: nat)
    requires Tiled(c, bs) && i < |bs| && bs[i].used
    ensures var op := DoTrim(At(bs[i].start + c.header), n);
      Futile(c, bs, op) <==>
        && 0 < Rounded(c, n) < Data(c, bs, i) < Rounded(c, n) + c.header + c.minData
        && (i + 1 < |bs| ==> bs[i + 1].used)
  {
    hide Rounded, Tiled, Disturbs;
    var op := DoTrim(At(bs[i].start + c.header), n);
    TrimDisturbs(c, bs, op.p, n, i);
    StartInHeap(c, bs, i);
    if 0 < Rounded(c, n) < Data(c, bs, i) { TrimmedIsSame(c, bs, i, Rounded(c, n)); }
  }

  lemma OutsideUndisturbed(c: Config, bs: seq<Block>, op: Op)
    requires Tiled(c, bs) && !op.DoMalloc? && !InHeap(c, op.p)
    ensures !Disturbs(c, bs, op)
  {
  }

  /** A trim refused at once, for its size or its pointer */
  lemma TrimOutside(c: Config, bs: seq<Block>, p: Ptr, n: nat)
    requires Tiled(c, bs) && (InHeap(c, p) ==> Holds(c, bs, p))
    ensures Rounded(c, n) == 0 || !InHeap(c, p) ==>
      TrimPtr(c, bs, p, n) == (bs, if Rounded(c, n) == 0 then Null else p) && !Disturbs(c, bs, DoTrim(p, n))
  {
    hide Rounded;
    if !InHeap(c, p) { OutsideUndisturbed(c, bs, DoTrim(p, n)); }
  }

  lemma TrimHeld(c: Config, bs: seq<Block>, p: Ptr, n: nat, i: nat)
    requires Tiled(c, bs) && i < |bs| && InHeap(c, p) && c.header <= p.off && bs[i] == Block(p.off - c.header, true)
    requires Rounded(c, n) != 0
    ensures TrimPtr(c, bs, p, n) == (Trimmed(c, bs, i, Rounded(c, n)), if Data(c, bs, i) < Rounded(c, n) then Null else p)
    ensures Disturbs(c, bs, DoTrim(p, n)) <==> Rounded(c, n) < Data(c, bs, i)
  {
    hide Rounded, Disturbs, Tiled;
    TrimDisturbs(c, bs, p, n, i);
  }

  /** A trim that does not disturb changes nothing. */
  lemma TrimChanges(c: Config, bs: seq<Block>, p: Ptr, n: nat)
    requires Tiled(c, bs) && Holds(c, bs, p)
    ensures !Disturbs(c, bs, DoTrim(p, n)) ==> Apply(c, bs, DoTrim(p, n)) == bs
    ensures Disturbs(c, bs, DoFree(p))
  {
    hide Rounded;
    var i := HeldIndex(c, bs, p);
    TrimDisturbs(c, bs, p, n, i);
    assert DisturbsAt(c, bs, DoFree(p), i);
  }

  lemma FreeChanges(c: Config, bs: seq<Block>, p: Ptr)
    requires WellFormed(c, bs)
    ensures !Disturbs(c, bs, DoFree(p)) ==> FreePtr(c, bs, p) == bs
    ensures FreePtr(c, bs, p) != bs ==> UsedSpan(FreePtr(c, bs, p), c.memSize) < UsedSpan(bs, c.memSize)
  {
    hide Coalesced, Freed;
    if !Rejected(c, p) {
      var i := IndexOf(bs, p.off - c.header);
      if i < |bs| && bs[i].used {
        assert DisturbsAt(c, bs, DoFree(p), i);
        FreedSpan(c, bs, i);
      }
    }
  }

  lemma FreedSpan(c: Config, bs: seq<Block>, i: nat)
    requires Tiled(c, bs) && i < |bs| && bs[i].used
    ensures UsedSpan(Freed(bs, i), c.memSize) < UsedSpan(bs, c.memSize)
  {
    hide UsedSpan, Plugged;
    MarkedSpan(c, bs, i);
    PluggedSpan(c, bs[i := Block(bs[i].start, false)], i);
  }

  lemma TrimPtrChanges(c: Config, bs: seq<Block>, p: Ptr, n: nat)
    requires WellFormed(c, bs)
    ensures var r := TrimPtr(c, bs, p, n).0;
      && (!Disturbs(c, bs, DoTrim(p, n)) ==> r == bs)
      && (r != bs ==> UsedSpan(r, c.memSize) < UsedSpan(bs, c.memSize))
  {
    hide Coalesced, UsedSpan, Rounded, Tiled;
    if Rounded(c, n) != 0 && InHeap(c, p) {
      var i := IndexOf(bs, p.off - c.header);
      if i < |bs| && bs[i].used && Rounded(c, n) < Data(c, bs, i) {
        assert DisturbsAt(c, bs, DoTrim(p, n), i);
        TrimmedSpan(c, bs, i, Rounded(c, n));
      }
    }
  }

  /** What does not disturb changes nothing, and what changes something gives memory back. */
  lemma ReleaseChanges(c: Config, bs: seq<Block>, op: Op)
    requires WellFormed(c, bs) && Releases(c, op)
    ensures WellFormed(c, Apply(c, bs, op))
    ensures !Disturbs(c, bs, op) ==> Apply(c, bs, op) == bs
    ensures Apply(c, bs, op) != bs ==> UsedSpan(Apply(c, bs, op), c.memSize) < UsedSpan(bs, c.memSize)
  {
    ApplyWellFormed(c, bs, op);
    hide Disturbs, WellFormed, UsedSpan, FreePtr, TrimPtr;
    match op
    case DoFree(p) => FreeChanges(c, bs, p);
    case DoTrim(p, n) => TrimPtrChanges(c, bs, p, n);
  }

  // ---------- What happens at an unlock point ----------

  /** The other contexts: at the n-th unlock point they free and trim count(n) times, and what they do may depend on
      the blocks there are. */
  datatype Others = Others(count: nat -> nat, op: (nat, nat, seq<Block>) -> Op)

  ghost predicate Releasing(c: Config, env: Others) {
    forall n: nat, j: nat, bs :: Releases(c, env.op(n, j, bs))
  }

  /** At unlock point n, something futile may happen. */
  ghost predicate FutileAt(c: Config, env: Others, n: nat) {
    exists j: nat, bs :: j < env.count(n) && WellFormed(c, bs) && Futile(c, bs, env.op(n, j, bs))
  }

  /** From the unlock point `quiet` on nothing futile happens. */
  ghost predicate Quiet(c: Config, env: Others, quiet: nat) {
    forall n: nat :: quiet <= n ==> !FutileAt(c, env, n)
  }

  /** The blocks after the first j things that happen at unlock point n, and whether a mem_malloc notices. What is not
      held, or is the block to be kept, is left alone. */
  ghost function Meanwhile(c: Config, env: Others, n: nat, keep: Ptr, bs: seq<Block>, j: nat): (seq<Block>, bool)
    requires Releasing(c, env)
  {
    if j == 0 then (bs, false)
    else
      var (b, noticed) := Meanwhile(c, env, n, keep, bs, j - 1);
      var op := env.op(n, j - 1, b);
      if Holds(c, b, op.p) && op.p != keep then (Apply(c, b, op), noticed || Disturbs(c, b, op)) else (b, noticed)
  }

  /** What is not noticed changes nothing; what is noticed gives memory back, or is futile. */
  lemma {:induction false} MeanwhileChanges(c: Config, env: Others, n: nat, keep: Ptr, bs: seq<Block>, j: nat)
    requires Releasing(c, env) && WellFormed(c, bs) && j <= env.count(n)
    ensures var (b, noticed) := Meanwhile(c, env, n, keep, bs, j);
      && WellFormed(c, b) && (!noticed ==> b == bs) && (noticed && b == bs ==> FutileAt(c, env, n))
      && (b == bs || UsedSpan(b, c.memSize) < UsedSpan(bs, c.memSize))
  {
    hide WellFormed, UsedSpan, Apply, Disturbs, Holds;
    if j != 0 {
      MeanwhileChanges(c, env, n, keep, bs, j - 1);
      var (b, noticed) := Meanwhile(c, env, n, keep, bs, j - 1);
      assert Releases(c, env.op(n, j - 1, b));
      ReleaseChanges(c, b, env.op(n, j - 1, b));
    }
  }

  // ---------- One scan ----------

  /** How a scan of mem_malloc ends, and the unlock point it has come to. */
  datatype Scanned = Found(k: nat, n: nat) | NoFit(n: nat) | Restart(n: nat, bs: seq<Block>)

  /** The scan from block k on: at every block there is an unlock point, and what is noticed there ends the scan. */
  ghost function Scan(c: Config, env: Others, size: nat, n: nat, bs: seq<Block>, k: nat): Scanned
    requires Releasing(c, env) && k <= |bs|
    decreases |bs| - k
  {
    if k == |bs| || c.memSize - size <= StartAt(c, bs, k) then NoFit(n)
    else
      var (b, noticed) := Meanwhile(c, env, n, Null, bs, env.count(n));
      if noticed then Restart(n + 1, b)
      else if Fits(c, bs, size, k) then Found(k, n + 1)
      else Scan(c, env, size, n + 1, bs, k + 1)
  }

  /** The lowest free block, where a scan starts. */
  function FirstFree(bs: seq<Block>): (i: nat)
    ensures i <= |bs| && (i < |bs| ==> !bs[i].used) && forall k :: 0 <= k < i ==> bs[k].used
  {
    if bs == [] || !bs[0].used then 0 else 1 + FirstFree(bs[1..])
  }

  lemma {:induction false} ScanEnds(c: Config, env: Others, size: nat, n: nat, bs: seq<Block>, k: nat)
    requires Releasing(c, env) && WellFormed(c, bs) && k <= |bs|
    ensures n <= Scan(c, env, size, n, bs, k).n
    ensures var s := Scan(c, env, size, n, bs, k); s.Restart? ==>
      && n < s.n && WellFormed(c, s.bs) && (s.bs == bs ==> FutileAt(c, env, s.n - 1))
      && (s.bs == bs || UsedSpan(s.bs, c.memSize) < UsedSpan(bs, c.memSize))
    decreases |bs| - k
  {
    hide WellFormed, UsedSpan, Meanwhile, FutileAt, Fits;
    if k < |bs| && StartAt(c, bs, k) < c.memSize - size {
      MeanwhileChanges(c, env, n, Null, bs, env.count(n));
      ScanEnds(c, env, size, n + 1, bs, k + 1);
    }
  }

  // ---------- Scan after scan ----------

  /** The first m scans are all disturbed and started again. */
  ghost predicate Restarts(c: Config, env: Others, size: nat, n: nat, bs: seq<Block>, m: nat)
    requires Releasing(c, env)
    decreases m
  {
    m == 0 || (var s := Scan(c, env, size, n, bs, FirstFree(bs)); s.Restart? && Restarts(c, env, size, s.n, s.bs, m - 1))
  }

  /** How many of the first m scans were disturbed by nothing that changed the blocks. */
  ghost function FutileRestarts(c: Config, env: Others, size: nat, n: nat, bs: seq<Block>, m: nat): nat
    requires Releasing(c, env)
    decreases m
  {
    if m == 0 then 0
    else
      var s := Scan(c, env, size, n, bs, FirstFree(bs));
      if s.Restart? then (if s.bs == bs then 1 else 0) + FutileRestarts(c, env, size, s.n, s.bs, m - 1) else 0
  }

  lemma NextScan(c: Config, env: Others, size: nat, n: nat, bs: seq<Block>, m: nat) returns (s: Scanned)
    requires Releasing(c, env) && WellFormed(c, bs) && Restarts(c, env, size, n, bs, m) && m != 0
    ensures s.Restart? && WellFormed(c, s.bs) && Restarts(c, env, size, s.n, s.bs, m - 1)
    ensures FutileRestarts(c, env, size, n, bs, m) == (if s.bs == bs then 1 else 0) + FutileRestarts(c, env, size, s.n, s.bs, m - 1)
    ensures s.bs == bs || UsedSpan(s.bs, c.memSize) < UsedSpan(bs, c.memSize)
  {
    ScanEnds(c, env, size, n, bs, FirstFree(bs));
    hide Scan, Releasing, WellFormed, UsedSpan, FirstFree, FutileAt;
    s := Scan(c, env, size, n, bs, FirstFree(bs));
  }

  lemma NoRestarts(c: Config, env: Others, size: nat, n: nat, bs: seq<Block>)
    requires Releasing(c, env)
    ensures FutileRestarts(c, env, size, n, bs, 0) == 0
  {
  }

  /** All restarts but the futile ones give memory back, so there are no more of them than bytes in use. */
  lemma {:induction false} OthersAreFutile(c: Config, env: Others, size: nat, n: nat, bs: seq<Block>, m: nat)
    requires Releasing(c, env) && WellFormed(c, bs) && Restarts(c, env, size, n, bs, m)
    ensures m <= UsedSpan(bs, c.memSize) + FutileRestarts(c, env, size, n, bs, m)
    ensures FutileRestarts(c, env, size, n, bs, m) <= m
    decreases m
  {
    hide *;
    SpanOfHeap(c, bs);
    if m != 0 {
      var s := NextScan(c, env, size, n, bs, m);
      OthersAreFutile(c, env, size, s.n, s.bs, m - 1);
    } else {
      NoRestarts(c, env, size, n, bs);
    }
  }

  lemma {:induction false} FewerRestarts(c: Config, env: Others, size: nat, n: nat, bs: seq<Block>, m: nat, l: nat)
    requires Releasing(c, env) && Restarts(c, env, size, n, bs, m) && l <= m
    ensures Restarts(c, env, size, n, bs, l)
    decreases m
  {
    hide Scan;
    if l != 0 {
      var s := Scan(c, env, size, n, bs, FirstFree(bs));
      FewerRestarts(c, env, size, s.n, s.bs, m - 1, l - 1);
    }
  }

  /** However often the scan is started again, it is disturbed once more. */
  ghost predicate NeverEnds(c: Config, env: Others, size: nat, n: nat, bs: seq<Block>)
    requires Releasing(c, env)
  {
    forall m: nat :: Restarts(c, env, size, n, bs, m)
  }

  lemma NeverEndsRestarts(c: Config, env: Others, size: nat, n: nat, bs: seq<Block>)
    requires Releasing(c, env)
    ensures NeverEnds(c, env, size, n, bs) ==>
      var s := Scan(c, env, size, n, bs, FirstFree(bs)); s.Restart? && NeverEnds(c, env, size, s.n, s.bs)
  {
    hide Scan;
    if NeverEnds(c, env, size, n, bs) {
      assert Restarts(c, env, size, n, bs, 1);
      var s := Scan(c, env, size, n, bs, FirstFree(bs));
      forall m: nat ensures Restarts(c, env, size, s.n, s.bs, m) { assert Restarts(c, env, size, n, bs, m + 1); }
    }
  }

  /** At least l of its scans are disturbed in vain. */
  ghost predicate InVain(c: Config, env: Others, size: nat, n: nat, bs: seq<Block>, l: nat)
    requires Releasing(c, env)
  {
    exists m: nat :: Restarts(c, env, size, n, bs, m) && l <= FutileRestarts(c, env, size, n, bs, m)
  }

  /** mem_malloc starts its scan again for ever exactly if there is no end to what disturbs it in vain. */
  lemma RestartsForEverIff(c: Config, env: Others, size: nat, n: nat, bs: seq<Block>)
    requires Releasing(c, env) && WellFormed(c, bs)
    ensures NeverEnds(c, env, size, n, bs) <==> forall l: nat :: InVain(c, env, size, n, bs, l)
  {
    if NeverEnds(c, env, size, n, bs) {
      forall l: nat ensures InVain(c, env, size, n, bs, l) { ForEverInVain(c, env, size, n, bs, l); }
    }
    if forall l: nat :: InVain(c, env, size, n, bs, l) {
      forall m: nat ensures Restarts(c, env, size, n, bs, m) { InVainAgain(c, env, size, n, bs, m); }
    }
  }

  lemma ForEverInVain(c: Config, env: Others, size: nat, n: nat, bs: seq<Block>, l: nat)
    requires Releasing(c, env) && WellFormed(c, bs) && NeverEnds(c, env, size, n, bs)
    ensures InVain(c, env, size, n, bs, l)
  {
    SpanOfHeap(c, bs);
    var m: nat := UsedSpan(bs, c.memSize) + l;
    assert Restarts(c, env, size, n, bs, m);
    OthersAreFutile(c, env, size, n, bs, m);
  }

  lemma InVainAgain(c: Config, env: Others, size: nat, n: nat, bs: seq<Block>, m: nat)
    requires Releasing(c, env) && WellFormed(c, bs) && InVain(c, env, size, n, bs, m)
    ensures Restarts(c, env, size, n, bs, m)
  {
    var m': nat :| Restarts(c, env, size, n, bs, m') && m <= FutileRestarts(c, env, size, n, bs, m');
    OthersAreFutile(c, env, size, n, bs, m');
    FewerRestarts(c, env, size, n, bs, m', m);
  }

  lemma SpanOfHeap(c: Config, bs: seq<Block>)
    requires WellFormed(c, bs)
    ensures 0 <= UsedSpan(bs, c.memSize)
  {
    SpanNonNegative(bs, c.memSize);
  }

  /** If nothing futile happens from some unlock point on, the number of restarts is bounded, whatever else is freed
      and trimmed. */
  lemma QuietEnds(c: Config, env: Others, size: nat, n: nat, bs: seq<Block>, m: nat, quiet: nat)
    requires Releasing(c, env) && WellFormed(c, bs) && Quiet(c, env, quiet) && Restarts(c, env, size, n, bs, m)
    ensures m <= UsedSpan(bs, c.memSize) + if n < quiet then quiet - n else 0
  {
    OthersAreFutile(c, env, size, n, bs, m);
    FewFutile(c, env, size, n, bs, m, quiet);
  }

  lemma {:induction false} FewFutile(c: Config, env: Others, size: nat, n: nat, bs: seq<Block>, m: nat, quiet: nat)
    requires Releasing(c, env) && WellFormed(c, bs) && Quiet(c, env, quiet)
    ensures FutileRestarts(c, env, size, n, bs, m) <= if n < quiet then quiet - n else 0
    decreases m
  {
    hide WellFormed, UsedSpan, Scan, FutileAt;
    if m != 0 {
      ScanEnds(c, env, size, n, bs, FirstFree(bs));
      var s := Scan(c, env, size, n, bs, FirstFree(bs));
      if s.Restart? { FewFutile(c, env, size, s.n, s.bs, m - 1, quiet); }
    }
  }

  // ---------- A mem_malloc that never ends ----------

  /** The same once at every unlock point. */
  function Always(op: Op): Others {
    Others((n: nat) => 1, (n: nat, j: nat, bs: seq<Block>) => op)
  }

  lemma {:induction false} RestartsAgain(c: Config, op: Op, size: nat, n: nat, bs: seq<Block>, m: nat)
    requires Releases(c, op) && WellFormed(c, bs) && Futile(c, bs, op)
    requires FirstFree(bs) < |bs| && StartAt(c, bs, FirstFree(bs)) < c.memSize - size
    ensures Releasing(c, Always(op)) && Restarts(c, Always(op), size, n, bs, m)
    decreases m
  {
    hide WellFormed, Apply, Rounded;
    var env := Always(op);
    assert Releasing(c, env);
    if m != 0 {
      assert Holds(c, bs, op.p) by { var i :| 0 <= i < |bs| && DisturbsAt(c, bs, op, i); }
      assert Meanwhile(c, env, n, Null, bs, 0) == (bs, false) && env.op(n, 0, bs) == op;
      assert Meanwhile(c, env, n, Null, bs, 1) == (bs, true);
      assert Scan(c, env, size, n, bs, FirstFree(bs)) == Restart(n + 1, bs);
      RestartsAgain(c, op, size, n + 1, bs, m - 1);
    }
  }

  /** With a futile trim at every unlock point, every scan is started again. */
  lemma RestartsForever(c: Config, op: Op, size: nat, n: nat, bs: seq<Block>)
    requires Releases(c, op) && WellFormed(c, bs) && Futile(c, bs, op)
    requires FirstFree(bs) < |bs| && StartAt(c, bs, FirstFree(bs)) < c.memSize - size
    ensures Releasing(c, Always(op)) && NeverEnds(c, Always(op), size, n, bs)
  {
    assert Releasing(c, Always(op));
    forall m: nat ensures Restarts(c, Always(op), size, n, bs, m) { RestartsAgain(c, op, size, n, bs, m); }
  }

  /** It does happen: after two calls of mem_malloc, a trim of the first block that would cut off one alignment unit,
      repeated at every unlock point, keeps a third call from ever ending. */
  lemma ThirdMallocNeverEnds(c: Config)
    requires 3 * (c.header + c.minData) + c.align <= c.memSize
    ensures var bs := Run(c, Initial(), [DoMalloc(c.minData + c.align), DoMalloc(c.minData)]);
      var op := DoTrim(At(c.header), c.minData);
      && WellFormed(c, bs) && Futile(c, bs, op)
      && Releasing(c, Always(op)) && NeverEnds(c, Always(op), Rounded(c, c.minData), 0, bs)
  {
    hide WellFormed, Rounded, Run, Restarts, Futile, TwoBlocks, FirstFree, Releases, Releasing;
    AfterTwoCalls(c);
    TwoCallsWellFormed(c);
    RoundedToItself(c, c.minData);
    TrimOfTheFirst(c);
    RestartsForever(c, DoTrim(At(c.header), c.minData), c.minData, 0, TwoBlocks(c));
  }

  lemma TwoCallsWellFormed(c: Config)
    requires c.minData + c.align <= c.memSize
    ensures WellFormed(c, Run(c, Initial(), [DoMalloc(c.minData + c.align), DoMalloc(c.minData)]))
  {
    hide WellFormed, Run;
    var ops := [DoMalloc(c.minData + c.align), DoMalloc(c.minData)];
    assert forall o :: o in ops ==> InRange(c, o);
    RunWellFormed(c, ops);
  }

  lemma TrimOfTheFirst(c: Config)
    requires 3 * (c.header + c.minData) + c.align <= c.memSize && WellFormed(c, TwoBlocks(c)) && Rounded(c, c.minData) == c.minData
    ensures var bs := TwoBlocks(c);
      && Releases(c, DoTrim(At(c.header), c.minData)) && Futile(c, bs, DoTrim(At(c.header), c.minData))
      && FirstFree(bs) == 2 && StartAt(c, bs, 2) < c.memSize - c.minData
  {
    hide Rounded;
    var bs := TwoBlocks(c);
    assert c.align <= c.header by { SmallAligned(c); }
    TrimThatOnlyDisturbs(c, bs, 0, c.minData);
    assert bs[1..][1..] == bs[2..];
    assert FirstFree(bs[2..]) == 0 && FirstFree(bs[1..]) == 1;
  }

  lemma SmallAligned(c: Config)
    ensures c.align <= c.header
  {
    if c.header < c.align { SmallMultipleIsZero(c.header, c.align); }
  }

  function TwoBlocks(c: Config): seq<Block> {
    [Block(0, true), Block(c.header + c.minData + c.align, true), Block(2 * (c.header + c.minData) + c.align, false)]
  }

  lemma AfterTwoCalls(c: Config)
    requires 3 * (c.header + c.minData) + c.align <= c.memSize
    ensures Run(c, Initial(), [DoMalloc(c.minData + c.align), DoMalloc(c.minData)]) == TwoBlocks(c)
  {
    var first, second := DoMalloc(c.minData + c.align), DoMalloc(c.minData);
    ModOfMultiple(1, c.align);
    AlignedSum(c.minData, c.align, c.align);
    RoundedToItself(c, c.minData + c.align);
    RoundedToItself(c, c.minData);
    hide Rounded;
    var one := [Block(0, true), Block(c.header + c.minData + c.align, false)];
    assert FirstFit(c, Initial(), c.minData + c.align, 0) == 0;
    assert Apply(c, Initial(), first) == one;
    assert FirstFit(c, one, c.minData, 0) == 1 by { assert FirstFit(c, one, c.minData, 1) == 1; }
    assert Apply(c, one, second) == TwoBlocks(c);
    assert [first, second][..1] == [first] && [first][..0] == [];
    assert Run(c, Initial(), []) == Initial();
    assert Run(c, Initial(), [first]) == one;
  }
}
