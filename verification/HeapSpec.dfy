/** The lwIP heap seen as a value: the list of blocks that the headers inside
    `ram` spell out, and what each operation does to that list.

    The class in Heap.dfy is proved to refine these functions; this module
    proves what the functions promise. */
module HeapSpec {
  import opened Arith

  /** The compile-time geometry of the heap. `width` is the number of values of mem_size_t. */
  datatype Geometry = Geometry(align: nat, header: nat, minData: nat, memSize: nat, width: nat)
  {
    predicate Valid() {
      && 0 < align
      && 0 < header && header % align == 0
      && 0 < minData && minData % align == 0
      && memSize % align == 0
      && width % align == 0
      && header + minData <= memSize < width
    }
  }

  type Config = g: Geometry | g.Valid() witness Geometry(4, 8, 12, 10240, 0x10000)

  /** One block: where its header starts and whether it is allocated.
      It reaches up to the start of the next block, or to the end of the heap. */
  datatype Block = Block(start: nat, used: bool)

  /** A user pointer, as an offset from `ram`. */
  datatype Ptr = Null | At(off: int)

  function StartAt(c: Config, bs: seq<Block>, i: nat): nat {
    if i < |bs| then bs[i].start else c.memSize
  }

  /** Number of data bytes of block i. */
  function Data(c: Config, bs: seq<Block>, i: nat): int
    requires i < |bs|
  {
    StartAt(c, bs, i + 1) - (bs[i].start + c.header)
  }

  // ---------- Well-formedness ----------

  /** The blocks tile [0, memSize): aligned headers in increasing order, each
      followed by at least the minimal amount of data. */
  ghost predicate Tiled(c: Config, bs: seq<Block>) {
    && 0 < |bs| && bs[0].start == 0
    && (forall i :: 0 <= i < |bs| ==> bs[i].start % c.align == 0)
    && (forall i :: 0 <= i < |bs| ==> bs[i].start + c.header + c.minData <= c.memSize)
    && (forall i, j :: 0 <= i < j < |bs| ==> bs[i].start + c.header + c.minData <= bs[j].start)
  }

  /** No two neighbours are both free. */
  ghost predicate Coalesced(bs: seq<Block>) {
    forall i, j :: 0 <= i && j == i + 1 && j < |bs| ==> bs[i].used || bs[j].used
  }

  ghost predicate WellFormed(c: Config, bs: seq<Block>) {
    Tiled(c, bs) && Coalesced(bs)
  }

  /** p is the data of an allocated block: what malloc returned and nobody freed yet. */
  ghost predicate Holds(c: Config, bs: seq<Block>, p: Ptr) {
    p.At? && exists i :: 0 <= i < |bs| && bs[i].used && bs[i].start + c.header == p.off
  }

  ghost predicate Listed(bs: seq<Block>, p: int) {
    exists i :: 0 <= i < |bs| && bs[i].start == p
  }

  /** Block [start, end) is allocated. */
  ghost predicate Live(c: Config, bs: seq<Block>, start: int, end: int) {
    exists i :: LiveAt(c, bs, i, start, end)
  }

  predicate LiveAt(c: Config, bs: seq<Block>, i: int, start: int, end: int) {
    0 <= i < |bs| && bs[i].used && bs[i].start == start && StartAt(c, bs, i + 1) == end
  }

  /** `lf` is a header (or the end of the heap) and no free block lies below it. */
  ghost predicate BelowFree(c: Config, bs: seq<Block>, lf: nat) {
    && (lf == c.memSize || Listed(bs, lf))
    && forall i :: 0 <= i < |bs| && !bs[i].used ==> lf <= bs[i].start
  }

  /** `lf` is the lowest free block, or the end of the heap when nothing is free. */
  ghost predicate LowestFree(c: Config, bs: seq<Block>, lf: nat) {
    && BelowFree(c, bs, lf)
    && forall i :: 0 <= i < |bs| && bs[i].start == lf ==> !bs[i].used
  }

  /** Total span (headers included) of the allocated blocks of a list that ends at `end`. */
  function UsedSpan(bs: seq<Block>, end: int): int {
    if bs == [] then 0
    else
      var last := bs[|bs| - 1];
      UsedSpan(bs[..|bs| - 1], last.start) + if last.used then end - last.start else 0
  }

  // ---------- The operations ----------

  function Inserted(bs: seq<Block>, j: nat, b: Block): (r: seq<Block>)
    requires j <= |bs|
    ensures |r| == |bs| + 1
    ensures forall k :: 0 <= k < |r| ==> r[k] == if k < j then bs[k] else if k == j then b else bs[k - 1]
  {
    bs[..j] + [b] + bs[j..]
  }

  function Removed(bs: seq<Block>, j: nat): (r: seq<Block>)
    requires j < |bs|
    ensures |r| == |bs| - 1
    ensures forall k :: 0 <= k < |r| ==> r[k] == if k < j then bs[k] else bs[k + 1]
  {
    bs[..j] + bs[j + 1..]
  }

  function AlignUp(c: Config, n: nat): nat
  {
    (n + c.align - 1) - (n + c.align - 1) % c.align
  }

  /** The data size a request is rounded to (truncated to mem_size_t), or 0 when
      the request cannot be met by any heap. */
  function Rounded(c: Config, n: nat): nat
  {
    Clamped(c, n, AlignUp(c, n) % c.width)
  }

  function Clamped(c: Config, n: nat, aligned: nat): nat {
    var size := if aligned < c.minData then c.minData else aligned;
    if c.memSize < size || size < n then 0 else size
  }

  predicate Fits(c: Config, bs: seq<Block>, size: nat, i: nat)
    requires i < |bs|
  {
    !bs[i].used && size <= Data(c, bs, i)
  }

  function FirstFit(c: Config, bs: seq<Block>, size: nat, from: nat): (i: nat)
    requires from <= |bs|
    ensures from <= i <= |bs|
    ensures i < |bs| ==> Fits(c, bs, size, i)
    ensures forall j :: from <= j < i ==> !Fits(c, bs, size, j)
    decreases |bs| - from
  {
    if from == |bs| || Fits(c, bs, size, from) then from else FirstFit(c, bs, size, from + 1)
  }

  function Allocated(c: Config, bs: seq<Block>, i: nat, size: nat): seq<Block>
    requires i < |bs|
  {
    if size + c.header + c.minData <= Data(c, bs, i) then
      Inserted(bs[i := Block(bs[i].start, true)], i + 1, Block(bs[i].start + c.header + size, false))
    else
      bs[i := Block(bs[i].start, true)]
  }

  function Malloc(c: Config, bs: seq<Block>, n: nat): (seq<Block>, Ptr)
  {
    if n == 0 || Rounded(c, n) == 0 then (bs, Null)
    else
      var i := FirstFit(c, bs, Rounded(c, n), 0);
      if i == |bs| then (bs, Null)
      else (Allocated(c, bs, i, Rounded(c, n)), At(bs[i].start + c.header))
  }

  /** Merge free block i with its free neighbours. */
  function Plugged(bs: seq<Block>, i: nat): seq<Block>
    requires i < |bs|
  {
    var forward := if i + 1 < |bs| && !bs[i + 1].used then Removed(bs, i + 1) else bs;
    if 0 < i && !bs[i - 1].used then Removed(forward, i) else forward
  }

  function Freed(bs: seq<Block>, i: nat): seq<Block>
    requires i < |bs|
  {
    Plugged(bs[i := Block(bs[i].start, false)], i)
  }

  function Trimmed(c: Config, bs: seq<Block>, i: nat, size: nat): seq<Block>
    requires i < |bs|
  {
    var moved := Block(bs[i].start + c.header + size, false);
    if Data(c, bs, i) <= size then bs
    else if i + 1 < |bs| && !bs[i + 1].used then bs[i + 1 := moved]
    else if size + c.header + c.minData <= Data(c, bs, i) then Inserted(bs, i + 1, moved)
    else bs
  }

  // ---------- Rounding a request ----------

  lemma AlignUpCorrect(c: Config, n: nat)
    ensures n <= AlignUp(c, n) < n + c.align && AlignUp(c, n) % c.align == 0
  {
    var a := n + c.align - 1;
    assert AlignUp(c, n) == c.align * (a / c.align);
    ModOfMultiple(a / c.align, c.align);
  }

  /** What the truncation to mem_size_t leaves of the aligned size. When it does
      wrap, it wraps to 0 and the request itself is larger than the heap. */
  lemma TruncationHarmless(c: Config, n: nat)
    requires n < c.width
    ensures AlignUp(c, n) % c.width == if AlignUp(c, n) < c.width then AlignUp(c, n) else 0
    ensures c.width <= AlignUp(c, n) ==> c.memSize < n
  {
    var up := AlignUp(c, n);
    AlignUpCorrect(c, n);
    if up < c.width {
      SmallMod(up, c.width);
    } else {
      AlignedSum(up, c.width, c.align);
      SmallMultipleIsZero(up - c.width, c.align);
      AlignedSum(c.width, c.memSize, c.align);
      if c.width - c.memSize < c.align {
        SmallMultipleIsZero(c.width - c.memSize, c.align);
      }
      ModOfMultiple(1, c.width);
    }
  }

  /** The rounded size covers the request, is aligned and exceeds it by less than
      one alignment unit unless it is the minimum; it is 0 exactly when the
      aligned request is larger than the heap. */
  lemma RoundedCorrect(c: Config, n: nat)
    requires 0 < n < c.width
    ensures (Rounded(c, n) == 0) == (c.memSize < AlignUp(c, n))
    ensures var s := Rounded(c, n);
      s != 0 ==> n <= s <= c.memSize && c.minData <= s && s % c.align == 0
                 && (s == c.minData || s < n + c.align)
  {
    AlignUpCorrect(c, n);
    TruncationHarmless(c, n);
  }

  // ---------- Every operation keeps the list well formed ----------

  /** Blocks of a list with one inserted are apart. */
  lemma InsertedApart(c: Config, bs: seq<Block>, j: nat, b: Block, k: nat, l: nat)
    requires Tiled(c, bs) && 0 < j <= |bs| && k < l < |Inserted(bs, j, b)|
    requires bs[j - 1].start + c.header + c.minData <= b.start && b.start + c.header + c.minData <= StartAt(c, bs, j)
    ensures Inserted(bs, j, b)[k].start + c.header + c.minData <= Inserted(bs, j, b)[l].start
  {
    if l == j && k < j - 1 { assert bs[k].start <= bs[j - 1].start; }
    if k == j && j + 1 < l { assert bs[j].start <= bs[l - 1].start; }
  }

  lemma InsertedTiled(c: Config, bs: seq<Block>, j: nat, b: Block)
    requires Tiled(c, bs) && 0 < j <= |bs| && b.start % c.align == 0
    requires bs[j - 1].start + c.header + c.minData <= b.start
    requires b.start + c.header + c.minData <= StartAt(c, bs, j)
    ensures Tiled(c, Inserted(bs, j, b))
  {
    var r := Inserted(bs, j, b);
    forall k | 0 <= k < |r| ensures r[k].start % c.align == 0 && r[k].start + c.header + c.minData <= c.memSize {
      assert r[k] == if k < j then bs[k] else if k == j then b else bs[k - 1];
    }
    forall k, l | 0 <= k < l < |r| ensures r[k].start + c.header + c.minData <= r[l].start { InsertedApart(c, bs, j, b, k, l); }
    hide Inserted;
  }

  lemma RemovedTiled(c: Config, bs: seq<Block>, j: nat)
    requires Tiled(c, bs) && 0 < j < |bs|
    ensures Tiled(c, Removed(bs, j))
  {
  }

  lemma MarkedTiled(c: Config, bs: seq<Block>, i: nat, used: bool)
    requires Tiled(c, bs) && i < |bs|
    ensures Tiled(c, bs[i := Block(bs[i].start, used)])
  {
    var r := bs[i := Block(bs[i].start, used)];
    assert forall k :: 0 <= k < |r| ==> r[k].start == bs[k].start;
  }

  lemma DataStartAligned(c: Config, bs: seq<Block>, i: nat, size: nat)
    requires Tiled(c, bs) && i < |bs| && size % c.align == 0
    ensures (bs[i].start + c.header + size) % c.align == 0
  {
    AlignedSum(bs[i].start, c.header, c.align);
    AlignedSum(bs[i].start + c.header, size, c.align);
  }

  lemma AllocatedTiled(c: Config, bs: seq<Block>, i: nat, size: nat)
    requires Tiled(c, bs) && i < |bs| && c.minData <= size && size % c.align == 0
    ensures Tiled(c, Allocated(c, bs, i, size))
  {
    hide Tiled, Inserted;
    MarkedTiled(c, bs, i, true);
    if size + c.header + c.minData <= Data(c, bs, i) {
      DataStartAligned(c, bs, i, size);
      InsertedTiled(c, bs[i := Block(bs[i].start, true)], i + 1, Block(bs[i].start + c.header + size, false));
    }
  }

  lemma AllocatedCoalesced(c: Config, bs: seq<Block>, i: nat, size: nat)
    requires Coalesced(bs) && i < |bs| && !bs[i].used
    ensures Coalesced(Allocated(c, bs, i, size))
  {
  }

  lemma PluggedTiled(c: Config, bs: seq<Block>, i: nat)
    requires Tiled(c, bs) && i < |bs|
    ensures Tiled(c, Plugged(bs, i))
  {
    var forward := if i + 1 < |bs| && !bs[i + 1].used then Removed(bs, i + 1) else bs;
    if i + 1 < |bs| && !bs[i + 1].used { RemovedTiled(c, bs, i + 1); }
    if 0 < i && !bs[i - 1].used { RemovedTiled(c, forward, i); }
  }

  lemma FreedCoalesced(bs: seq<Block>, i: nat)
    requires Coalesced(bs) && i < |bs|
    ensures Coalesced(Freed(bs, i))
  {
  }

  lemma MovedTiled(c: Config, bs: seq<Block>, j: nat, b: Block)
    requires Tiled(c, bs) && 0 < j < |bs| && b.start % c.align == 0
    requires bs[j - 1].start + c.header + c.minData <= b.start <= bs[j].start
    ensures Tiled(c, bs[j := b])
  {
    var r := bs[j := b];
    forall k, l | 0 <= k < l < |r| ensures r[k].start + c.header + c.minData <= r[l].start {
      assert k < j - 1 ==> bs[k].start <= bs[j - 1].start;
    }
  }

  lemma TrimmedTiled(c: Config, bs: seq<Block>, i: nat, size: nat)
    requires Tiled(c, bs) && i < |bs| && c.minData <= size && size % c.align == 0
    ensures Tiled(c, Trimmed(c, bs, i, size))
  {
    var moved := Block(bs[i].start + c.header + size, false);
    DataStartAligned(c, bs, i, size);
    if size < Data(c, bs, i) {
      if i + 1 < |bs| && !bs[i + 1].used {
        MovedTiled(c, bs, i + 1, moved);
      } else if size + c.header + c.minData <= Data(c, bs, i) {
        InsertedTiled(c, bs, i + 1, moved);
      }
    }
  }

  lemma TrimmedCoalesced(c: Config, bs: seq<Block>, i: nat, size: nat)
    requires Coalesced(bs) && i < |bs| && bs[i].used
    ensures Coalesced(Trimmed(c, bs, i, size))
  {
  }

  // ---------- The `used` statistic ----------

  function FirstStart(bs: seq<Block>, end: int): int {
    if bs == [] then end else bs[0].start
  }

  lemma {:induction false} SpanConcat(a: seq<Block>, b: seq<Block>, end: int)
    ensures UsedSpan(a + b, end) == UsedSpan(a, FirstStart(b, end)) + UsedSpan(b, end)
  {
    if b == [] {
      assert a + b == a;
    } else {
      var last := b[|b| - 1];
      SpanConcat(a, b[..|b| - 1], last.start);
      assert (a + b)[..|a + b| - 1] == a + b[..|b| - 1];
      assert FirstStart(b[..|b| - 1], last.start) == b[0].start;
    }
  }

  /** A run of blocks inside a list contributes its own span. */
  lemma SpanMiddle(a: seq<Block>, m: seq<Block>, b: seq<Block>, end: int)
    requires m != []
    ensures UsedSpan(a + m + b, end)
         == UsedSpan(a, m[0].start) + UsedSpan(m, FirstStart(b, end)) + UsedSpan(b, end)
  {
    hide UsedSpan;
    assert a + m + b == a + (m + b) && (m + b)[0] == m[0];
    SpanConcat(a, m + b, end);
    SpanConcat(m, b, end);
  }

  lemma SpanOne(x: Block, end: int)
    ensures UsedSpan([x], end) == if x.used then end - x.start else 0
  {
    assert [x][..0] == [];
  }

  lemma SpanTwo(x: Block, y: Block, end: int)
    ensures UsedSpan([x, y], end)
         == (if x.used then y.start - x.start else 0) + (if y.used then end - y.start else 0)
  {
    assert [x, y][..1] == [x];
    SpanOne(x, y.start);
  }

  /** What block i contributes. */
  lemma SpanAt(c: Config, bs: seq<Block>, i: nat)
    requires i < |bs|
    ensures UsedSpan(bs, c.memSize) == UsedSpan(bs[..i], bs[i].start) + UsedSpan(bs[i + 1..], c.memSize)
         + if bs[i].used then StartAt(c, bs, i + 1) - bs[i].start else 0
  {
    SpanMiddle(bs[..i], [bs[i]], bs[i + 1..], c.memSize);
    assert bs[..i] + [bs[i]] + bs[i + 1..] == bs;
    SpanOne(bs[i], StartAt(c, bs, i + 1));
  }

  lemma PairSplit(bs: seq<Block>, i: nat)
    requires i + 1 < |bs|
    ensures bs[..i] + [bs[i], bs[i + 1]] + bs[i + 2..] == bs
  {
  }

  lemma SpanPairAt(c: Config, bs: seq<Block>, i: nat)
    requires i + 1 < |bs|
    ensures UsedSpan(bs, c.memSize) == UsedSpan(bs[..i], bs[i].start) + UsedSpan(bs[i + 2..], c.memSize)
         + (if bs[i].used then bs[i + 1].start - bs[i].start else 0)
         + (if bs[i + 1].used then StartAt(c, bs, i + 2) - bs[i + 1].start else 0)
  {
    hide UsedSpan;
    PairSplit(bs, i);
    SpanMiddle(bs[..i], [bs[i], bs[i + 1]], bs[i + 2..], c.memSize);
    SpanTwo(bs[i], bs[i + 1], StartAt(c, bs, i + 2));
  }

  lemma {:induction false} SpanNonNegative(bs: seq<Block>, end: int)
    requires forall i :: 0 <= i < |bs| ==> bs[i].start <= end
    requires forall i, j :: 0 <= i < j < |bs| ==> bs[i].start <= bs[j].start
    ensures 0 <= UsedSpan(bs, end)
  {
    if bs != [] { SpanNonNegative(bs[..|bs| - 1], bs[|bs| - 1].start); }
  }

  lemma AllocatedSpan(c: Config, bs: seq<Block>, i: nat, size: nat)
    requires i < |bs| && !bs[i].used
    ensures UsedSpan(Allocated(c, bs, i, size), c.memSize) == UsedSpan(bs, c.memSize)
         + if size + c.header + c.minData <= Data(c, bs, i) then size + c.header
           else StartAt(c, bs, i + 1) - bs[i].start
  {
    var r := Allocated(c, bs, i, size);
    SpanAt(c, bs, i);
    assert r[..i] == bs[..i];
    if size + c.header + c.minData <= Data(c, bs, i) {
      SpanPairAt(c, r, i);
      assert r[i + 2..] == bs[i + 1..];
    } else {
      SpanAt(c, r, i);
      assert r[i + 1..] == bs[i + 1..];
    }
  }

  /** Dropping the header of a free block behind a free block changes no used span. */
  lemma RemovedSpan(c: Config, bs: seq<Block>, j: nat)
    requires 0 < j < |bs| && !bs[j].used && !bs[j - 1].used
    ensures UsedSpan(Removed(bs, j), c.memSize) == UsedSpan(bs, c.memSize)
  {
    var r := Removed(bs, j);
    SpanPairAt(c, bs, j - 1);
    SpanAt(c, r, j - 1);
    assert r[..j - 1] == bs[..j - 1];
    assert r[j..] == bs[j + 1..];
  }

  lemma PluggedSpan(c: Config, bs: seq<Block>, i: nat)
    requires i < |bs| && !bs[i].used
    ensures UsedSpan(Plugged(bs, i), c.memSize) == UsedSpan(bs, c.memSize)
  {
    var forward := if i + 1 < |bs| && !bs[i + 1].used then Removed(bs, i + 1) else bs;
    if i + 1 < |bs| && !bs[i + 1].used { RemovedSpan(c, bs, i + 1); }
    if 0 < i && !bs[i - 1].used { RemovedSpan(c, forward, i); }
  }

  lemma MarkedSpan(c: Config, bs: seq<Block>, i: nat)
    requires i < |bs| && bs[i].used
    ensures UsedSpan(bs[i := Block(bs[i].start, false)], c.memSize)
         == UsedSpan(bs, c.memSize) - (StartAt(c, bs, i + 1) - bs[i].start)
  {
    var r := bs[i := Block(bs[i].start, false)];
    SpanAt(c, bs, i);
    SpanAt(c, r, i);
    assert r[..i] == bs[..i] && r[i + 1..] == bs[i + 1..];
  }

  lemma TrimmedSpan(c: Config, bs: seq<Block>, i: nat, size: nat)
    requires i < |bs| && bs[i].used
    ensures UsedSpan(Trimmed(c, bs, i, size), c.memSize) == UsedSpan(bs, c.memSize)
         - if Trimmed(c, bs, i, size) == bs then 0 else Data(c, bs, i) - size
  {
    var r := Trimmed(c, bs, i, size);
    if r != bs {
      assert r[..i] == bs[..i];
      SpanPairAt(c, r, i);
      if i + 1 < |bs| && !bs[i + 1].used {
        SpanPairAt(c, bs, i);
        assert r[i + 2..] == bs[i + 2..];
      } else {
        SpanAt(c, bs, i);
        assert r[i + 2..] == bs[i + 1..];
      }
    }
  }

  // ---------- What each operation means to the holders of memory ----------

  /** Allocated blocks never overlap: two of them are the same or apart. */
  lemma LiveDisjoint(c: Config, bs: seq<Block>, s: int, e: int, s': int, e': int)
    requires Tiled(c, bs) && Live(c, bs, s, e) && Live(c, bs, s', e')
    ensures 0 <= s < s + c.header + c.minData <= e <= c.memSize
    ensures (s == s' && e == e') || e <= s' || e' <= s
  {
    var i :| LiveAt(c, bs, i, s, e);
    var j :| LiveAt(c, bs, j, s', e');
    assert i + 1 < |bs| ==> bs[i].start + c.header + c.minData <= bs[i + 1].start;
    if i < j { assert bs[i + 1].start <= bs[j].start; }
    if j < i { assert bs[j + 1].start <= bs[i].start; }
  }

  lemma MarkedLive(c: Config, bs: seq<Block>, i: nat, used: bool, s: int, e: int)
    requires Tiled(c, bs) && i < |bs|
    ensures Live(c, bs[i := Block(bs[i].start, used)], s, e) <==>
      if s == bs[i].start then used && e == StartAt(c, bs, i + 1) else Live(c, bs, s, e)
  {
    var r := bs[i := Block(bs[i].start, used)];
    if Live(c, r, s, e) {
      var k :| LiveAt(c, r, k, s, e);
      assert k != i ==> LiveAt(c, bs, k, s, e) && bs[k].start != bs[i].start;
    }
    if Live(c, bs, s, e) && s != bs[i].start {
      var k :| LiveAt(c, bs, k, s, e);
      assert LiveAt(c, r, k, s, e);
    }
    assert used ==> LiveAt(c, r, i, bs[i].start, StartAt(c, bs, i + 1));
  }

  lemma InsertedLiveOnly(c: Config, bs: seq<Block>, j: nat, b: Block, s: int, e: int)
    requires Tiled(c, bs) && 0 < j <= |bs| && !b.used && Live(c, Inserted(bs, j, b), s, e)
    ensures if s == bs[j - 1].start then bs[j - 1].used && e == b.start else Live(c, bs, s, e)
  {
    var k :| LiveAt(c, Inserted(bs, j, b), k, s, e);
    if k != j - 1 {
      var k' := if j < k then k - 1 else k;
      assert LiveAt(c, bs, k', s, e) && bs[k'].start != bs[j - 1].start;
    }
  }

  /** A free block inserted behind block j - 1 cuts that block short and does nothing else. */
  lemma InsertedLive(c: Config, bs: seq<Block>, j: nat, b: Block, s: int, e: int)
    requires Tiled(c, bs) && 0 < j <= |bs| && !b.used
    ensures Live(c, Inserted(bs, j, b), s, e) <==>
      if s == bs[j - 1].start then bs[j - 1].used && e == b.start else Live(c, bs, s, e)
  {
    hide Tiled, Inserted, StartAt;
    if Live(c, Inserted(bs, j, b), s, e) { InsertedLiveOnly(c, bs, j, b, s, e); }
    if if s == bs[j - 1].start then bs[j - 1].used && e == b.start else Live(c, bs, s, e) { InsertedLiveToo(c, bs, j, b, s, e); }
  }

  lemma InsertedLiveToo(c: Config, bs: seq<Block>, j: nat, b: Block, s: int, e: int)
    requires 0 < j <= |bs| && !b.used
    requires if s == bs[j - 1].start then bs[j - 1].used && e == b.start else Live(c, bs, s, e)
    ensures Live(c, Inserted(bs, j, b), s, e)
  {
    var r := Inserted(bs, j, b);
    if s == bs[j - 1].start {
      assert LiveAt(c, r, j - 1, s, e);
    } else {
      var k :| LiveAt(c, bs, k, s, e);
      assert LiveAt(c, r, if j <= k then k + 1 else k, s, e);
    }
  }

  lemma MovedLive(c: Config, bs: seq<Block>, j: nat, b: Block, s: int, e: int)
    requires Tiled(c, bs) && 0 < j < |bs| && !bs[j].used && !b.used
    ensures Live(c, bs[j := b], s, e) <==>
      if s == bs[j - 1].start then bs[j - 1].used && e == b.start else Live(c, bs, s, e)
  {
    var r := bs[j := b];
    if Live(c, r, s, e) {
      var k :| LiveAt(c, r, k, s, e);
      assert k != j - 1 ==> LiveAt(c, bs, k, s, e) && bs[k].start != bs[j - 1].start;
    }
    if Live(c, bs, s, e) && s != bs[j - 1].start {
      var k :| LiveAt(c, bs, k, s, e);
      assert LiveAt(c, r, k, s, e);
    }
    assert bs[j - 1].used ==> LiveAt(c, r, j - 1, bs[j - 1].start, b.start);
  }

  lemma RemovedLive(c: Config, bs: seq<Block>, j: nat, s: int, e: int)
    requires 0 < j < |bs| && !bs[j].used && !bs[j - 1].used
    ensures Live(c, Removed(bs, j), s, e) <==> Live(c, bs, s, e)
  {
    var r := Removed(bs, j);
    if Live(c, bs, s, e) {
      var k :| LiveAt(c, bs, k, s, e);
      assert LiveAt(c, r, if j < k then k - 1 else k, s, e);
    }
    if Live(c, r, s, e) {
      var k :| LiveAt(c, r, k, s, e);
      assert LiveAt(c, bs, if j <= k then k + 1 else k, s, e);
    }
  }

  lemma NotLiveYet(c: Config, bs: seq<Block>, i: nat)
    requires Tiled(c, bs) && i < |bs| && !bs[i].used
    ensures !exists e' :: Live(c, bs, bs[i].start, e')
  {
    forall k, e' ensures !LiveAt(c, bs, k, bs[i].start, e') {}
  }

  /** malloc adds exactly one allocated block, carved from free space, and leaves
      every other allocated block as it was. */
  lemma AllocatedLive(c: Config, bs: seq<Block>, i: nat, size: nat, s: int, e: int)
    requires Tiled(c, bs) && i < |bs| && Fits(c, bs, size, i)
    ensures !exists e' :: Live(c, bs, bs[i].start, e')
    ensures Live(c, Allocated(c, bs, i, size), s, e) <==>
      if s == bs[i].start then
        e == if size + c.header + c.minData <= Data(c, bs, i) then s + c.header + size else StartAt(c, bs, i + 1)
      else Live(c, bs, s, e)
  {
    NotLiveYet(c, bs, i);
    MarkedLive(c, bs, i, true, s, e);
    MarkedTiled(c, bs, i, true);
    hide Tiled, Inserted, Live;
    if size + c.header + c.minData <= Data(c, bs, i) {
      InsertedLive(c, bs[i := Block(bs[i].start, true)], i + 1, Block(bs[i].start + c.header + size, false), s, e);
    }
  }

  /** free removes exactly the freed block from the allocated ones. */
  lemma FreedLive(c: Config, bs: seq<Block>, i: nat, s: int, e: int)
    requires Tiled(c, bs) && i < |bs|
    ensures Live(c, Freed(bs, i), s, e) <==> Live(c, bs, s, e) && s != bs[i].start
  {
    var m := bs[i := Block(bs[i].start, false)];
    MarkedLive(c, bs, i, false, s, e);
    var forward := if i + 1 < |m| && !m[i + 1].used then Removed(m, i + 1) else m;
    if i + 1 < |m| && !m[i + 1].used { RemovedLive(c, m, i + 1, s, e); }
    if 0 < i && !m[i - 1].used { RemovedLive(c, forward, i, s, e); }
  }

  lemma MovedStart(bs: seq<Block>, j: nat, b: Block)
    requires j < |bs| && b.start != bs[j].start
    ensures bs[j := b] != bs
  {
    assert bs[j := b][j] == b;
  }

  /** trim leaves every other allocated block as it was; the trimmed one keeps its
      start, never grows and still holds the requested size. */
  lemma TrimmedLive(c: Config, bs: seq<Block>, i: nat, size: nat, s: int, e: int)
    requires Tiled(c, bs) && i < |bs| && bs[i].used && size <= Data(c, bs, i)
    ensures Live(c, Trimmed(c, bs, i, size), s, e) <==>
      if s == bs[i].start then
        e == if Trimmed(c, bs, i, size) == bs then StartAt(c, bs, i + 1) else s + c.header + size
      else Live(c, bs, s, e)
  {
    hide Tiled, Live, Inserted;
    var moved := Block(bs[i].start + c.header + size, false);
    if size < Data(c, bs, i) && i + 1 < |bs| && !bs[i + 1].used {
      MovedLive(c, bs, i + 1, moved, s, e);
      MovedStart(bs, i + 1, moved);
    } else if size < Data(c, bs, i) && size + c.header + c.minData <= Data(c, bs, i) {
      InsertedLive(c, bs, i + 1, moved, s, e);
    } else {
      MarkedLive(c, bs, i, true, s, e);
      assert bs[i := Block(bs[i].start, true)] == bs;
    }
  }

  /** Freeing a block straight after it was allocated restores the exact block list. */
  lemma FreeUndoesMalloc(c: Config, bs: seq<Block>, i: nat, size: nat)
    requires WellFormed(c, bs) && i < |bs| && Fits(c, bs, size, i)
    ensures Allocated(c, bs, i, size)[i].used
    ensures Freed(Allocated(c, bs, i, size), i) == bs
  {
    var r := Allocated(c, bs, i, size);
    assert bs[i] == Block(bs[i].start, false);
    var m := r[i := Block(r[i].start, false)];
    if size + c.header + c.minData <= Data(c, bs, i) {
      assert Removed(m, i + 1) == bs;
    } else {
      assert m == bs;
    }
  }

  /** A well-formed heap has just one lowest free block. */
  lemma LowestFreeUnique(c: Config, bs: seq<Block>, p: nat, q: nat)
    requires Tiled(c, bs) && LowestFree(c, bs, p) && LowestFree(c, bs, q)
    ensures p == q
  {
  }

  // ---------- Whole runs ----------

  datatype Op = DoMalloc(n: nat) | DoFree(p: Ptr) | DoTrim(p: Ptr, n: nat)

  function Initial(): seq<Block> { [Block(0, false)] }

  function IndexOf(bs: seq<Block>, p: int): (i: nat)
    ensures i <= |bs| && (i < |bs| ==> bs[i].start == p)
    ensures forall k :: 0 <= k < i ==> bs[k].start != p
  {
    if bs == [] || bs[0].start == p then 0 else 1 + IndexOf(bs[1..], p)
  }

  /** Pointers mem_free turns down by looking at the pointer alone. */
  predicate Rejected(c: Config, p: Ptr) {
    p.Null? || p.off % c.align != 0 || p.off < c.header || c.memSize < p.off + c.minData
  }

  /** mem_free: rejected pointers, and blocks that are free already, change nothing. */
  function FreePtr(c: Config, bs: seq<Block>, p: Ptr): seq<Block> {
    if Rejected(c, p) then bs
    else
      var i := IndexOf(bs, p.off - c.header);
      if i < |bs| && bs[i].used then Freed(bs, i) else bs
  }

  predicate InHeap(c: Config, p: Ptr) {
    p.At? && 0 <= p.off < c.memSize
  }

  /** mem_trim of an allocated block: the new list, and the pointer or Null when
      the block would have to grow. */
  function TrimPtr(c: Config, bs: seq<Block>, p: Ptr, n: nat): (seq<Block>, Ptr) {
    if Rounded(c, n) == 0 then (bs, Null)
    else if !InHeap(c, p) then (bs, p)
    else
      var i := IndexOf(bs, p.off - c.header);
      if i < |bs| && bs[i].used && Data(c, bs, i) < Rounded(c, n) then (bs, Null)
      else if i < |bs| && bs[i].used then (Trimmed(c, bs, i, Rounded(c, n)), p)
      else (bs, p)
  }

  function Apply(c: Config, bs: seq<Block>, op: Op): seq<Block> {
    match op
    case DoMalloc(n) => Malloc(c, bs, n).0
    case DoFree(p) => FreePtr(c, bs, p)
    case DoTrim(p, n) => TrimPtr(c, bs, p, n).0
  }

  function Run(c: Config, bs: seq<Block>, ops: seq<Op>): seq<Block> {
    if ops == [] then bs else Apply(c, Run(c, bs, ops[..|ops| - 1]), ops[|ops| - 1])
  }

  predicate InRange(c: Config, op: Op) {
    op.DoFree? || op.n < c.width
  }

  lemma ApplyWellFormed(c: Config, bs: seq<Block>, op: Op)
    requires WellFormed(c, bs) && InRange(c, op)
    ensures WellFormed(c, Apply(c, bs, op))
  {
    hide Rounded, Tiled, Coalesced;
    match op
    case DoMalloc(n) =>
      if n != 0 && Rounded(c, n) != 0 {
        RoundedAligned(c, n);
        var i := FirstFit(c, bs, Rounded(c, n), 0);
        if i < |bs| {
          AllocatedTiled(c, bs, i, Rounded(c, n));
          AllocatedCoalesced(c, bs, i, Rounded(c, n));
        }
      }
    case DoFree(p) =>
      if !Rejected(c, p) {
        var i := IndexOf(bs, p.off - c.header);
        if i < |bs| {
          MarkedTiled(c, bs, i, false);
          PluggedTiled(c, bs[i := Block(bs[i].start, false)], i);
          FreedCoalesced(bs, i);
        }
      }
    case DoTrim(p, n) =>
      if InHeap(c, p) && Rounded(c, n) != 0 {
        RoundedAligned(c, n);
        var i := IndexOf(bs, p.off - c.header);
        if i < |bs| && bs[i].used {
          TrimmedTiled(c, bs, i, Rounded(c, n));
          TrimmedCoalesced(c, bs, i, Rounded(c, n));
        }
      }
  }

  lemma RoundedAligned(c: Config, n: nat)
    requires n < c.width && Rounded(c, n) != 0
    ensures c.minData <= Rounded(c, n) <= c.memSize && Rounded(c, n) % c.align == 0
  {
    AlignUpCorrect(c, n);
    TruncationHarmless(c, n);
    ModOfMultiple(0, c.align);
  }

  /** Every run of malloc, free and trim calls, in any order and with any
      arguments, leaves a well-formed heap. */
  lemma {:induction false} RunWellFormed(c: Config, ops: seq<Op>)
    requires forall op :: op in ops ==> InRange(c, op)
    ensures WellFormed(c, Run(c, Initial(), ops))
  {
    if ops == [] {
      ModOfMultiple(0, c.align);
    } else {
      RunWellFormed(c, ops[..|ops| - 1]);
      ApplyWellFormed(c, Run(c, Initial(), ops[..|ops| - 1]), ops[|ops| - 1]);
    }
  }

  /** The two assertions of mem_trim that `next` does not lead to the end of the heap. In its first case, where the
      next block is free, it holds; in its second case it holds exactly if the trimmed block is not the last one. The
      second case does not occur at all in a heap too small for two blocks. */
  lemma NextIsNotTheEnd(c: Config, bs: seq<Block>, i: nat, size: nat)
    requires Tiled(c, bs) && i < |bs| && c.minData <= size
    ensures StartAt(c, bs, i + 1) != c.memSize <==> i + 1 < |bs|
    ensures i + 1 < |bs| && !bs[i + 1].used ==> StartAt(c, bs, i + 1) != c.memSize
    ensures size + c.header + c.minData <= Data(c, bs, i) ==> 2 * (c.header + c.minData) <= c.memSize
  {
  }

  /** A run that reaches the second case with the last block: mem_malloc of all there is, and mem_trim to less. */
  lemma LastBlockIsSplit(c: Config)
    requires 2 * (c.header + c.minData) <= c.memSize
    ensures var whole := DoMalloc(c.memSize - c.header);
      var bs := Run(c, Initial(), [whole]);
      && InRange(c, whole) && bs == [Block(0, true)] && StartAt(c, bs, 1) == c.memSize
      && Rounded(c, c.minData) == c.minData && c.minData + c.header + c.minData <= Data(c, bs, 0)
      && Run(c, Initial(), [whole, DoTrim(At(c.header), c.minData)]) == [Block(0, true), Block(c.header + c.minData, false)]
  {
    hide Rounded;
    var whole, trim := DoMalloc(c.memSize - c.header), DoTrim(At(c.header), c.minData);
    RoundedToItself(c, c.minData);
    WholeHeap(c);
    WholeTrimmed(c);
    assert [whole][..0] == [] && [whole, trim][..1] == [whole];
    assert Run(c, Initial(), []) == Initial();
  }

  lemma WholeHeap(c: Config)
    ensures Malloc(c, Initial(), c.memSize - c.header).0 == [Block(0, true)]
  {
    hide Rounded;
    var n := c.memSize - c.header;
    AlignedSum(c.memSize, c.header, c.align);
    RoundedToItself(c, n);
    assert Fits(c, Initial(), n, 0);
  }

  lemma WholeTrimmed(c: Config)
    requires 2 * (c.header + c.minData) <= c.memSize
    ensures TrimPtr(c, [Block(0, true)], At(c.header), c.minData).0 == [Block(0, true), Block(c.header + c.minData, false)]
  {
    hide Rounded;
    RoundedToItself(c, c.minData);
    var bs := [Block(0, true)];
    assert IndexOf(bs, 0) == 0;
    assert bs[..1] == bs && bs[1..] == [];
  }

  lemma RoundedToItself(c: Config, n: nat)
    requires n % c.align == 0 && c.minData <= n <= c.memSize
    ensures Rounded(c, n) == n
  {
    AlignUpCorrect(c, n);
    AlignedSum(AlignUp(c, n), n, c.align);
    if n < AlignUp(c, n) { SmallMultipleIsZero(AlignUp(c, n) - n, c.align); }
    SmallMod(n, c.width);
  }

  /** Once nothing is allocated any more the heap is one free block again: no
      sequence of calls leaves fragments behind. */
  lemma NothingLiveIsInitial(c: Config, bs: seq<Block>)
    requires WellFormed(c, bs) && forall s, e :: !Live(c, bs, s, e)
    ensures bs == Initial()
  {
    forall i | 0 <= i < |bs| ensures !bs[i].used {
      var e := StartAt(c, bs, i + 1);
      assert !Live(c, bs, bs[i].start, e);
      assert !LiveAt(c, bs, i, bs[i].start, e);
    }
    if 2 <= |bs| { assert bs[0].used || bs[1].used; }
  }

  /** malloc is a complete first fit: it fails exactly when no free block holds
      the aligned request, and otherwise hands out the lowest block that does. */
  lemma MallocIsFirstFit(c: Config, bs: seq<Block>, n: nat)
    requires WellFormed(c, bs) && 0 < n < c.width
    ensures var (r, p) := Malloc(c, bs, n);
      if p.Null? then
        r == bs && forall i :: 0 <= i < |bs| && !bs[i].used ==> Data(c, bs, i) < AlignUp(c, n)
      else
        exists i :: 0 <= i < |bs| && p == At(bs[i].start + c.header) && !bs[i].used
          && AlignUp(c, n) <= Data(c, bs, i) && n <= Data(c, r, i) && r[i].used && p.off % c.align == 0
          && forall j :: 0 <= j < i && !bs[j].used ==> Data(c, bs, j) < AlignUp(c, n)
  {
    RoundedCorrect(c, n);
    AlignUpCorrect(c, n);
    TruncationHarmless(c, n);
    var (r, p) := Malloc(c, bs, n);
    if p.At? {
      var i := FirstFit(c, bs, Rounded(c, n), 0);
      AlignedSum(bs[i].start, c.header, c.align);
      AllocatedTiled(c, bs, i, Rounded(c, n));
      assert r[i].used;
      forall j | 0 <= j < i && !bs[j].used ensures Data(c, bs, j) < AlignUp(c, n) {
        assert !Fits(c, bs, Rounded(c, n), j);
        assert StartAt(c, bs, j + 1) == bs[j + 1].start;
      }
    } else {
      forall i | 0 <= i < |bs| && !bs[i].used ensures Data(c, bs, i) < AlignUp(c, n) {
        DataAtLeastMin(c, bs, i);
        if Rounded(c, n) != 0 { assert !Fits(c, bs, Rounded(c, n), i); }
      }
    }
  }

  /** mem_free straight after mem_malloc restores the exact block list. */
  lemma MallocThenFree(c: Config, bs: seq<Block>, n: nat)
    requires WellFormed(c, bs) && 0 < n < c.width && Malloc(c, bs, n).1.At?
    ensures var (r, p) := Malloc(c, bs, n); r != bs && FreePtr(c, r, p) == bs
  {
    hide Tiled, Coalesced, Allocated, Freed, Rounded;
    RoundedAligned(c, n);
    var size := Rounded(c, n);
    var i := FirstFit(c, bs, size, 0);
    FreeUndoesMalloc(c, bs, i, size);
    AllocatedBlockAt(c, bs, i, size);
    var r := Allocated(c, bs, i, size);
    assert IndexOf(r, bs[i].start) == i;
  }

  lemma AllocatedBlockAt(c: Config, bs: seq<Block>, i: nat, size: nat)
    requires WellFormed(c, bs) && i < |bs|
    ensures var r := Allocated(c, bs, i, size);
      && i < |r| && r[i] == Block(bs[i].start, true)
      && forall k :: 0 <= k < i ==> r[k].start != bs[i].start
    ensures !Rejected(c, At(bs[i].start + c.header))
  {
    AlignedSum(bs[i].start, c.header, c.align);
  }

  lemma DataAtLeastMin(c: Config, bs: seq<Block>, i: nat)
    requires Tiled(c, bs) && i < |bs|
    ensures c.minData <= Data(c, bs, i) <= c.memSize
  {
  }

  // ---------- Frees and trims by other contexts while malloc runs ----------

  /** What other contexts may do meanwhile: free or trim. */
  predicate Releases(c: Config, op: Op) {
    !op.DoMalloc? && InRange(c, op)
  }

  /** They free and trim, but leave `keep` alone. */
  ghost predicate Sparing(c: Config, ops: seq<Op>, keep: Ptr) {
    forall op :: op in ops ==> Releases(c, op) && op.p != keep
  }

  lemma {:induction false} RunConcat(c: Config, bs: seq<Block>, a: seq<Op>, b: seq<Op>)
    ensures Run(c, Run(c, bs, a), b) == Run(c, bs, a + b)
  {
    hide Apply;
    if b == [] {
      assert a + b == a;
    } else {
      RunConcat(c, bs, a, b[..|b| - 1]);
      assert (a + b)[..|a + b| - 1] == a + b[..|b| - 1];
    }
  }

  /** The block from s to e is what is left of a live one. */
  ghost predicate Covered(c: Config, bs: seq<Block>, s: int, e: int) {
    exists e' :: e <= e' && Live(c, bs, s, e')
  }

  lemma ReleaseLive(c: Config, bs: seq<Block>, op: Op, s: int, e: int)
    requires WellFormed(c, bs) && Releases(c, op)
    ensures Live(c, Apply(c, bs, op), s, e) ==> Covered(c, bs, s, e)
    ensures Live(c, bs, s, e) && op.p != At(s + c.header) ==> Live(c, Apply(c, bs, op), s, e)
  {
    hide Tiled, Coalesced, Live, Rounded, Freed, Trimmed;
    match op
    case DoFree(p) =>
      if !Rejected(c, p) {
        var i := IndexOf(bs, p.off - c.header);
        if i < |bs| { FreedLive(c, bs, i, s, e); }
      }
    case DoTrim(p, n) =>
      if InHeap(c, p) {
        var i := IndexOf(bs, p.off - c.header);
        if i < |bs| && bs[i].used && Rounded(c, n) <= Data(c, bs, i) {
          TrimmedLive(c, bs, i, Rounded(c, n), s, e);
          UsedIsLive(c, bs, i);
          assert Live(c, bs, bs[i].start, StartAt(c, bs, i + 1));
        }
      }
  }

  lemma UsedIsLive(c: Config, bs: seq<Block>, i: nat)
    requires i < |bs| && bs[i].used
    ensures Live(c, bs, bs[i].start, StartAt(c, bs, i + 1))
  {
    assert LiveAt(c, bs, i, bs[i].start, StartAt(c, bs, i + 1));
  }

  /** Frees and trims only ever take memory away, and only from the blocks they name. */
  lemma {:induction false} ReleasesLive(c: Config, bs: seq<Block>, ops: seq<Op>, s: int, e: int)
    requires WellFormed(c, bs) && forall op :: op in ops ==> Releases(c, op)
    ensures WellFormed(c, Run(c, bs, ops))
    ensures Live(c, Run(c, bs, ops), s, e) ==> Covered(c, bs, s, e)
    ensures Live(c, bs, s, e) && Sparing(c, ops, At(s + c.header)) ==> Live(c, Run(c, bs, ops), s, e)
  {
    hide Tiled, Coalesced, Live, Apply;
    if ops == [] {
      assert Live(c, bs, s, e) ==> Covered(c, bs, s, e);
    } else {
      var early, op := ops[..|ops| - 1], ops[|ops| - 1];
      var bs' := Run(c, bs, early);
      ReleasesLive(c, bs, early, s, e);
      assert op in ops;
      ApplyWellFormed(c, bs', op);
      ReleaseLive(c, bs', op, s, e);
      if Live(c, Apply(c, bs', op), s, e) {
        var e' :| e <= e' && Live(c, bs', s, e');
        ReleasesLive(c, bs, early, s, e');
        var e'' :| e' <= e'' && Live(c, bs, s, e'');
      }
    }
  }

  /** The extent of the block malloc hands out. */
  lemma MallocLive(c: Config, bs: seq<Block>, n: nat) returns (e: int)
    requires WellFormed(c, bs) && 0 < n < c.width && Malloc(c, bs, n).1.At?
    ensures var (r, p) := Malloc(c, bs, n);
      && WellFormed(c, r) && Live(c, r, p.off - c.header, e) && p.off + n <= e
      && (forall s', e' :: s' != p.off - c.header ==> (Live(c, r, s', e') <==> Live(c, bs, s', e')))
  {
    hide Tiled, Coalesced, Live, Allocated;
    RoundedCorrect(c, n);
    var size := Rounded(c, n);
    var i := FirstFit(c, bs, size, 0);
    e := if size + c.header + c.minData <= Data(c, bs, i) then bs[i].start + c.header + size
         else StartAt(c, bs, i + 1);
    ApplyWellFormed(c, bs, DoMalloc(n));
    AllocatedLive(c, bs, i, size, bs[i].start, e);
    forall s', e' { AllocatedLive(c, bs, i, size, s', e'); }
  }

  /** What mem_malloc promises when other contexts free and trim while it runs: the new block [p, e) is live and large
      enough, and every other block that is live at the return is (what is left of) a block that was live at the
      start, and lies apart from it, whatever was done before (`early`) and after (`late`) the moment the block
      was taken. */
  lemma InterruptedMallocIsSafe(c: Config, start: seq<Block>, early: seq<Op>, n: nat, late: seq<Op>) returns (e: int)
    requires WellFormed(c, start) && 0 < n < c.width && forall op :: op in early ==> Releases(c, op)
    requires var p := Malloc(c, Run(c, start, early), n).1; p.At? && Sparing(c, late, p)
    ensures var (r, p) := Malloc(c, Run(c, start, early), n);
      var end := Run(c, r, late);
      && Live(c, end, p.off - c.header, e) && p.off + n <= e
      && forall s', e' :: Live(c, end, s', e') && s' != p.off - c.header ==>
           Covered(c, start, s', e') && (e' <= p.off - c.header || e <= s')
  {
    hide Tiled, Coalesced, Live, Malloc, Run, Covered;
    var before := Run(c, start, early);
    ReleasesLive(c, start, early, 0, 0);
    e := MallocLive(c, before, n);
    var (r, p) := Malloc(c, before, n);
    var end := Run(c, r, late);
    ReleasesLive(c, r, late, p.off - c.header, e);
    forall s', e' | Live(c, end, s', e') && s' != p.off - c.header
      ensures Covered(c, start, s', e') && (e' <= p.off - c.header || e <= s')
    {
      ReleasesLive(c, r, late, s', e');
      var e'' := CoveredBy(c, r, s', e');
      ReleasesLive(c, start, early, s', e'');
      Covers(c, start, s', e', e'');
      LiveDisjoint(c, r, s', e'', p.off - c.header, e);
    }
  }

  lemma CoveredBy(c: Config, bs: seq<Block>, s: int, e: int) returns (e': int)
    requires Covered(c, bs, s, e)
    ensures e <= e' && Live(c, bs, s, e')
  {
    e' :| e <= e' && Live(c, bs, s, e');
  }

  lemma Covers(c: Config, bs: seq<Block>, s: int, e: int, e': int)
    requires Covered(c, bs, s, e') && e <= e'
    ensures Covered(c, bs, s, e)
  {
    var e'' :| e' <= e'' && Live(c, bs, s, e'');
  }
}
