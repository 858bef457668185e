/** The heap as the program keeps it: headers linked by indices inside one
    array, the cursor `lfree` and the `used` statistic, all rewritten in place. */
module Heap {
  import opened Arith
  import opened HeapContexts
  import opened HeapSpec

  datatype Header = Header(next: nat, prev: nat, used: bool)

  /** Where plug_holes leaves `lfree`: a cursor on a header that disappears follows the merged block. */
  function PluggedCursor(bs: seq<Block>, i: nat, lfree: nat): nat
    requires i < |bs|
  {
    var forward := if i + 1 < |bs| && !bs[i + 1].used && lfree == bs[i + 1].start then bs[i].start else lfree;
    if 0 < i && !bs[i - 1].used && forward == bs[i].start then bs[i - 1].start else forward
  }

  function HeaderOf(c: Config, bs: seq<Block>, i: nat): Header
    requires i < |bs|
  {
    Header(StartAt(c, bs, i + 1), if i == 0 then 0 else bs[i - 1].start, bs[i].used)
  }

  /** The headers `rs`, by offset, spell out the block list: `next` leads from each
      block to the one behind it, `prev` inverts `next`, and the sentinel at the
      end stays used. */
  ghost predicate Spelled(c: Config, rs: seq<Header>, bs: seq<Block>) {
    && |rs| == c.memSize + 1
    && Tiled(c, bs)
    && (forall i :: 0 <= i < |bs| ==> rs[bs[i].start] == HeaderOf(c, bs, i))
    && rs[c.memSize] == Header(c.memSize, c.memSize, true)
  }

  /** What reading the header of block i, and following its links, yields. */
  lemma ReadHeader(c: Config, rs: seq<Header>, bs: seq<Block>, i: nat)
    requires Spelled(c, rs, bs) && i < |bs|
    ensures |rs| == c.memSize + 1
    ensures bs[i].start < c.memSize && rs[bs[i].start] == HeaderOf(c, bs, i)
    ensures bs[i].start < StartAt(c, bs, i + 1) <= c.memSize
    ensures StartAt(c, bs, i + 1) == c.memSize <==> i + 1 == |bs|
    ensures rs[StartAt(c, bs, i + 1)].used == (i + 1 == |bs| || bs[i + 1].used)
    ensures 0 < i ==> bs[i - 1].start < bs[i].start && rs[bs[i - 1].start].used == bs[i - 1].used
    ensures i == 0 ==> bs[i].start == 0
  {
    if i + 1 < |bs| { assert rs[bs[i + 1].start] == HeaderOf(c, bs, i + 1); }
    if 0 < i { assert rs[bs[i - 1].start] == HeaderOf(c, bs, i - 1); }
  }

  lemma RemovedBehind(bs: seq<Block>, i: nat)
    requires i + 1 < |bs|
    ensures |Removed(bs, i + 1)| == |bs| - 1 && Removed(bs, i + 1)[i] == bs[i] && (0 < i ==> Removed(bs, i + 1)[i - 1] == bs[i - 1])
  {
  }

  lemma PrevHeader(c: Config, bs: seq<Block>, i: nat)
    requires i < |bs|
    ensures HeaderOf(c, bs, i).prev == (if i == 0 then 0 else bs[i - 1].start) && HeaderOf(c, bs, i).next == StartAt(c, bs, i + 1)
  {
  }

  lemma StartsApart(c: Config, bs: seq<Block>, i: nat, k: nat)
    requires Tiled(c, bs) && i < k < |bs|
    ensures bs[i].start < bs[k].start < c.memSize
  {
  }

  /** `rs` after `next` of the header at `lower` was set to `next` and `prev` of the header
      at `next`, unless that is the end of the heap, to `lower`. */
  ghost predicate Relinked(c: Config, rs: seq<Header>, rs': seq<Header>, lower: nat, next: nat) {
    && |rs'| == |rs|
    && forall p :: 0 <= p < |rs| ==>
      rs'[p] == if p == lower then rs[p].(next := next)
                else if p == next && p != c.memSize then rs[p].(prev := lower) else rs[p]
  }

  function Unlinked(c: Config, rs: seq<Header>, lower: nat, next: nat): (rs': seq<Header>)
    ensures Relinked(c, rs, rs', lower, next)
  {
    seq(|rs|, p requires 0 <= p < |rs| =>
      if p == lower then rs[p].(next := next)
      else if p == next && p != c.memSize then rs[p].(prev := lower) else rs[p])
  }

  lemma RemovedHeader(c: Config, bs: seq<Block>, j: nat, i: nat)
    requires 0 < j < |bs| && i < |bs| - 1
    ensures HeaderOf(c, Removed(bs, j), i)
      == if i == j - 1 then HeaderOf(c, bs, i).(next := StartAt(c, bs, j + 1))
         else if i < j then HeaderOf(c, bs, i)
         else if i == j then HeaderOf(c, bs, j + 1).(prev := bs[j - 1].start)
         else HeaderOf(c, bs, i + 1)
  {
  }

  lemma RemovedAt(bs: seq<Block>, j: nat, i: nat)
    requires 0 < j < |bs| && i < |Removed(bs, j)|
    ensures Removed(bs, j)[i] == bs[if j <= i then i + 1 else i]
  {
  }

  /** Only block j - 1 starts where it does, and only block j + 1 where that does. */
  lemma AbsorbPlaces(c: Config, bs: seq<Block>, j: nat, k: nat)
    requires Tiled(c, bs) && 0 < j < |bs| && k < |bs|
    ensures bs[k].start == bs[j - 1].start <==> k == j - 1
    ensures bs[k].start == StartAt(c, bs, j + 1) <==> k == j + 1
    ensures bs[k].start < c.memSize
  {
    if k < j - 1 { StartsApart(c, bs, k, j - 1); }
    if j - 1 < k { StartsApart(c, bs, j - 1, k); }
    if j + 1 < k { StartsApart(c, bs, j + 1, k); }
    if k < j + 1 && j + 1 < |bs| { StartsApart(c, bs, k, j + 1); }
  }

  lemma AbsorbSpelledAt(c: Config, rs: seq<Header>, rs': seq<Header>, bs: seq<Block>, j: nat, i: nat)
    requires Spelled(c, rs, bs) && 0 < j < |bs| && i < |Removed(bs, j)|
    requires Relinked(c, rs, rs', bs[j - 1].start, StartAt(c, bs, j + 1))
    ensures var r := Removed(bs, j); r[i].start < |rs'| && rs'[r[i].start] == HeaderOf(c, r, i)
  {
    var i' := if j <= i then i + 1 else i;
    RemovedHeader(c, bs, j, i);
    RemovedAt(bs, j, i);
    AbsorbPlaces(c, bs, j, i');
    ReadHeader(c, rs, bs, i');
    hide Spelled, Tiled, Removed, HeaderOf, StartAt;
  }

  lemma AbsorbKeepsEnd(c: Config, rs: seq<Header>, rs': seq<Header>, bs: seq<Block>, j: nat)
    requires Spelled(c, rs, bs) && 0 < j < |bs|
    requires Relinked(c, rs, rs', bs[j - 1].start, StartAt(c, bs, j + 1))
    ensures |rs'| == |rs| && rs'[c.memSize] == rs[c.memSize]
  {
    StartsApart(c, bs, j - 1, j);
  }

  lemma AbsorbSpelled(c: Config, rs: seq<Header>, rs': seq<Header>, bs: seq<Block>, j: nat)
    requires Spelled(c, rs, bs) && 0 < j < |bs|
    requires Relinked(c, rs, rs', bs[j - 1].start, StartAt(c, bs, j + 1))
    ensures Spelled(c, rs', Removed(bs, j))
  {
    var r := Removed(bs, j);
    RemovedTiled(c, bs, j);
    hide Tiled, Relinked, HeaderOf, Removed;
    forall i | 0 <= i < |r| ensures rs'[r[i].start] == HeaderOf(c, r, i) { AbsorbSpelledAt(c, rs, rs', bs, j, i); }
    StartsAtZero(c, rs, bs);
    AbsorbKeepsEnd(c, rs, rs', bs, j);
  }

  lemma InsertedHeader(c: Config, bs: seq<Block>, j: nat, b: Block, i: nat)
    requires 0 < j <= |bs| && i <= |bs|
    ensures HeaderOf(c, Inserted(bs, j, b), i)
      == if i == j - 1 then HeaderOf(c, bs, i).(next := b.start)
         else if i < j then HeaderOf(c, bs, i)
         else if i == j then Header(StartAt(c, bs, j), bs[j - 1].start, b.used)
         else if i == j + 1 then HeaderOf(c, bs, i - 1).(prev := b.start)
         else HeaderOf(c, bs, i - 1)
    ensures Inserted(bs, j, b)[i].start
      == if i == j then b.start else if i < j then bs[i].start else bs[i - 1].start
  {
  }

  lemma LinkedInNew(c: Config, rs: seq<Header>, rs': seq<Header>, bs: seq<Block>, j: nat, b: Block)
    requires Spelled(c, rs, bs) && 0 < j <= |bs| && b.start < StartAt(c, bs, j)
    requires LinkedIn(c, rs, rs', bs[j - 1].start, b, StartAt(c, bs, j))
    ensures b.start < |rs'| && rs'[b.start] == Header(StartAt(c, bs, j), bs[j - 1].start, b.used)
  {
    ReadHeader(c, rs, bs, j - 1);
  }

  /** `rs` after a header for b was written and linked in between `lower` and `next`. */
  ghost predicate LinkedIn(c: Config, rs: seq<Header>, rs': seq<Header>, lower: nat, b: Block, next: nat) {
    && |rs'| == |rs|
    && forall p :: 0 <= p < |rs| ==>
      rs'[p] == if p == b.start then Header(next, lower, b.used)
                else if p == lower then rs[p].(next := b.start)
                else if p == next && p != c.memSize then rs[p].(prev := b.start) else rs[p]
  }

  lemma LinkedInHeader(c: Config, rs: seq<Header>, rs': seq<Header>, bs: seq<Block>, j: nat, b: Block, i: nat)
    requires Spelled(c, rs, bs) && 0 < j <= |bs| && i < |bs|
    requires bs[j - 1].start < b.start < StartAt(c, bs, j)
    requires LinkedIn(c, rs, rs', bs[j - 1].start, b, StartAt(c, bs, j))
    ensures bs[i].start < |rs'| && rs'[bs[i].start]
         == if i == j - 1 then HeaderOf(c, bs, i).(next := b.start)
            else if i == j then HeaderOf(c, bs, i).(prev := b.start)
            else HeaderOf(c, bs, i)
  {
    if i < j - 1 { StartsApart(c, bs, i, j - 1); }
    if j - 1 < i { StartsApart(c, bs, j - 1, i); }
    if j < i { StartsApart(c, bs, j, i); }
    if i < j && j < |bs| { StartsApart(c, bs, i, j); }
    assert rs[bs[i].start] == HeaderOf(c, bs, i);
  }

  lemma InsertedSpelledAt(c: Config, rs: seq<Header>, rs': seq<Header>, bs: seq<Block>, j: nat, b: Block, i: nat)
    requires Spelled(c, rs, bs) && 0 < j <= |bs| && i <= |bs|
    requires bs[j - 1].start < b.start < StartAt(c, bs, j)
    requires LinkedIn(c, rs, rs', bs[j - 1].start, b, StartAt(c, bs, j))
    ensures var r := Inserted(bs, j, b); r[i].start < |rs'| && rs'[r[i].start] == HeaderOf(c, r, i)
  {
    hide Tiled, LinkedIn, Spelled, HeaderOf;
    InsertedHeader(c, bs, j, b, i);
    if i == j {
      LinkedInNew(c, rs, rs', bs, j, b);
    } else {
      LinkedInHeader(c, rs, rs', bs, j, b, if i < j then i else i - 1);
    }
  }

  lemma InsertedSpelled(c: Config, rs: seq<Header>, rs': seq<Header>, bs: seq<Block>, j: nat, b: Block)
    requires Spelled(c, rs, bs) && 0 < j <= |bs|
    requires bs[j - 1].start < b.start < StartAt(c, bs, j)
    requires LinkedIn(c, rs, rs', bs[j - 1].start, b, StartAt(c, bs, j))
    requires Tiled(c, Inserted(bs, j, b))
    ensures Spelled(c, rs', Inserted(bs, j, b))
  {
    forall i | 0 <= i <= |bs| { InsertedSpelledAt(c, rs, rs', bs, j, b, i); }
  }

  lemma MovedIsReinserted(bs: seq<Block>, j: nat, b: Block)
    requires j < |bs|
    ensures Inserted(Removed(bs, j), j, b) == bs[j := b]
  {
  }

  /** Moving the header of the free block behind `lower`. */
  lemma MovedSpelled(c: Config, rs: seq<Header>, rs': seq<Header>, bs: seq<Block>, j: nat, b: Block)
    requires Spelled(c, rs, bs) && 0 < j < |bs| && !b.used
    requires bs[j - 1].start < b.start < StartAt(c, bs, j + 1)
    requires LinkedIn(c, rs, rs', bs[j - 1].start, b, StartAt(c, bs, j + 1))
    requires Tiled(c, bs[j := b])
    ensures Spelled(c, rs', bs[j := b])
  {
    hide Spelled, Tiled, Inserted, Removed;
    var lower, next := bs[j - 1].start, StartAt(c, bs, j + 1);
    ReadHeader(c, rs, bs, j - 1);
    ReadHeader(c, rs, bs, j);
    var rs1 := Unlinked(c, rs, lower, next);
    AbsorbSpelled(c, rs, rs1, bs, j);
    MovedIsReinserted(bs, j, b);
    InsertedSpelled(c, rs1, rs', Removed(bs, j), j, b);
  }

  /** mem_link_valid */
  predicate LinkValid(c: Config, rs: seq<Header>, mem: nat)
    requires |rs| == c.memSize + 1 && mem <= c.memSize
  {
    var h := rs[mem];
    !(c.memSize < h.next || c.memSize < h.prev
      || (h.prev != mem && rs[h.prev].next != mem)
      || (h.next != c.memSize && rs[h.next].prev != mem))
  }

  /** What mem_sanity asserts of the block at `mem` behind a block that is used or not. */
  predicate SaneAt(c: Config, rs: seq<Header>, mem: nat, lastUsed: bool) {
    && |rs| == c.memSize + 1 && mem <= c.memSize && mem % c.align == 0
    && rs[mem].prev <= c.memSize && rs[mem].next <= c.memSize
    && rs[mem].prev % c.align == 0 && rs[mem].next % c.align == 0
    && (lastUsed || rs[mem].used) && LinkValid(c, rs, mem)
  }

  lemma LinksAreValid(c: Config, rs: seq<Header>, bs: seq<Block>, i: nat)
    requires Spelled(c, rs, bs) && i < |bs|
    ensures LinkValid(c, rs, bs[i].start)
  {
    ReadHeader(c, rs, bs, i);
    if i + 1 < |bs| { assert rs[bs[i + 1].start] == HeaderOf(c, bs, i + 1); }
    if 0 < i { assert rs[bs[i - 1].start] == HeaderOf(c, bs, i - 1); }
  }

  lemma MarkedHeader(c: Config, bs: seq<Block>, i: nat, used: bool, k: nat)
    requires i < |bs| && k < |bs|
    ensures HeaderOf(c, bs[i := Block(bs[i].start, used)], k)
         == if k == i then HeaderOf(c, bs, k).(used := used) else HeaderOf(c, bs, k)
  {
  }

  /** Marking a block in place. */
  lemma MarkedSpelled(c: Config, rs: seq<Header>, rs': seq<Header>, bs: seq<Block>, i: nat, used: bool)
    requires Spelled(c, rs, bs) && i < |bs|
    requires |rs'| == |rs|
    requires forall p :: 0 <= p < |rs| ==> rs'[p] == if p == bs[i].start then rs[p].(used := used) else rs[p]
    ensures Spelled(c, rs', bs[i := Block(bs[i].start, used)])
  {
    var r := bs[i := Block(bs[i].start, used)];
    forall k | 0 <= k < |r| ensures rs'[r[k].start] == HeaderOf(c, r, k) {
      MarkedHeader(c, bs, i, used, k);
      if k < i { StartsApart(c, bs, k, i); }
      if i < k { StartsApart(c, bs, i, k); }
      assert rs[bs[k].start] == HeaderOf(c, bs, k);
    }
    MarkedTiled(c, bs, i, used);
  }

  /** The assertions of mem_sanity hold for every block. */
  lemma SaneBlock(c: Config, rs: seq<Header>, bs: seq<Block>, k: nat)
    requires WellFormed(c, bs) && Spelled(c, rs, bs) && 0 < k < |bs|
    ensures SaneAt(c, rs, bs[k].start, bs[k - 1].used)
  {
    hide Spelled, Tiled, Coalesced, LinkValid;
    ReadHeader(c, rs, bs, k);
    LinksAreValid(c, rs, bs, k);
    NeighboursAt(c, bs, k);
  }

  /** What mem_free needs to know about the specification of free. */
  lemma FreedFacts(c: Config, bs: seq<Block>, i: nat)
    requires WellFormed(c, bs) && i < |bs| && bs[i].used
    ensures Tiled(c, bs[i := Block(bs[i].start, false)]) && Coalesced(Freed(bs, i))
    ensures UsedSpan(Freed(bs, i), c.memSize) == UsedSpan(bs, c.memSize) - (StartAt(c, bs, i + 1) - bs[i].start)
    ensures bs[i].start < StartAt(c, bs, i + 1)
    ensures Freed(bs, i) != bs
    ensures Tiled(c, Freed(bs, i)) && 0 <= UsedSpan(Freed(bs, i), c.memSize)
  {
    MarkedTiled(c, bs, i, false);
    PluggedTiled(c, bs[i := Block(bs[i].start, false)], i);
    SpanNonNegative(Freed(bs, i), c.memSize);
    FreedCoalesced(bs, i);
    MarkedSpan(c, bs, i);
    PluggedSpan(c, bs[i := Block(bs[i].start, false)], i);
    assert StartAt(c, bs, i + 1) > bs[i].start;
  }

  /** What mem_malloc needs to know about the specification of malloc. */
  lemma AllocatedFacts(c: Config, bs: seq<Block>, i: nat, size: nat, lf: nat)
    requires WellFormed(c, bs) && i < |bs| && Fits(c, bs, size, i) && BelowFree(c, bs, lf)
    requires c.minData <= size && size % c.align == 0
    ensures var r := Allocated(c, bs, i, size);
      && WellFormed(c, r) && BelowFree(c, r, lf)
      && UsedSpan(r, c.memSize) == UsedSpan(bs, c.memSize)
        + (if size + c.header + c.minData <= Data(c, bs, i) then size + c.header
           else StartAt(c, bs, i + 1) - bs[i].start)
      && (LowestFree(c, bs, lf) && lf != bs[i].start ==> LowestFree(c, r, lf))
      && i < |r| && r[i] == Block(bs[i].start, true)
  {
    AllocatedTiled(c, bs, i, size);
    AllocatedCoalesced(c, bs, i, size);
    AllocatedSpan(c, bs, i, size);
    AllocatedCursor(c, bs, i, size, lf);
  }

  lemma AllocatedCursor(c: Config, bs: seq<Block>, i: nat, size: nat, lf: nat)
    requires Tiled(c, bs) && i < |bs| && Fits(c, bs, size, i) && BelowFree(c, bs, lf)
    ensures BelowFree(c, Allocated(c, bs, i, size), lf)
    ensures LowestFree(c, bs, lf) && lf != bs[i].start ==> LowestFree(c, Allocated(c, bs, i, size), lf)
  {
    var r := Allocated(c, bs, i, size);
    if lf != c.memSize {
      ListedIndex(bs, lf);
      var k := IndexOf(bs, lf);
      assert k <= i && r[k].start == lf;
      assert k < i ==> r[k] == bs[k];
    }
    forall k | 0 <= k < |r|
      ensures !r[k].used ==> lf <= r[k].start
      ensures LowestFree(c, bs, lf) && lf != bs[i].start && r[k].start == lf ==> !r[k].used
    {
      if |r| == |bs| + 1 && k != i + 1 {
        assert r[k] == if k == i then Block(bs[i].start, true) else if k < i then bs[k] else bs[k - 1];
      }
    }
  }

  /** Where mem_trim leaves the cursor. */
  function TrimmedCursor(c: Config, bs: seq<Block>, i: nat, size: nat, lf: nat): nat
    requires i < |bs|
  {
    var moved := bs[i].start + c.header + size;
    if Trimmed(c, bs, i, size) == bs then lf
    else if i + 1 < |bs| && !bs[i + 1].used then if lf == bs[i + 1].start then moved else lf
    else if moved < lf then moved else lf
  }

  /** What mem_trim needs to know about the specification of trim. */
  lemma TrimmedFacts(c: Config, bs: seq<Block>, i: nat, size: nat, lf: nat)
    requires WellFormed(c, bs) && i < |bs| && bs[i].used && BelowFree(c, bs, lf)
    requires c.minData <= size && size % c.align == 0
    ensures var r, lf' := Trimmed(c, bs, i, size), TrimmedCursor(c, bs, i, size, lf);
      && WellFormed(c, r) && BelowFree(c, r, lf') && (LowestFree(c, bs, lf) || lf' != lf ==> LowestFree(c, r, lf'))
      && UsedSpan(r, c.memSize) == UsedSpan(bs, c.memSize) - (if r == bs then 0 else Data(c, bs, i) - size)
      && 0 <= UsedSpan(r, c.memSize)
    ensures Trimmed(c, bs, i, size) != bs ==> size < Data(c, bs, i)
  {
    TrimmedTiled(c, bs, i, size);
    TrimmedCoalesced(c, bs, i, size);
    TrimmedSpan(c, bs, i, size);
    SpanNonNegative(Trimmed(c, bs, i, size), c.memSize);
    TrimmedCursorBelow(c, bs, i, size, lf);
  }

  lemma MovedLists(c: Config, bs: seq<Block>, j: nat, b: Block, lf: nat)
    requires Tiled(c, bs) && j < |bs| && Listed(bs, lf)
    ensures Listed(bs[j := b], if lf == bs[j].start then b.start else lf)
  {
    ListedIndex(bs, lf);
    assert bs[j := b][IndexOf(bs, lf)].start == if lf == bs[j].start then b.start else lf;
  }

  /** No other block starts where the moved one does now, and those behind it start later. */
  lemma MovedStarts(c: Config, bs: seq<Block>, j: nat, b: Block)
    requires Tiled(c, bs) && 0 < j < |bs| && bs[j - 1].start < b.start <= bs[j].start
    ensures forall k :: 0 <= k < |bs| && k != j ==> bs[k].start != b.start && bs[k].start != bs[j].start
    ensures forall k :: 0 <= k < |bs| && k != j && bs[j].start <= bs[k].start ==> b.start <= bs[k].start
  {
    forall k | 0 <= k < |bs| && k != j ensures bs[k].start != b.start && bs[k].start != bs[j].start {
      if k < j - 1 { StartsApart(c, bs, k, j - 1); }
      if k < j { StartsApart(c, bs, k, j); }
      if j < k { StartsApart(c, bs, j, k); }
    }
  }

  lemma MovedCursorBelow(c: Config, bs: seq<Block>, j: nat, b: Block, lf: nat)
    requires Tiled(c, bs) && 0 < j < |bs| && bs[j - 1].used && !bs[j].used && !b.used
    requires bs[j - 1].start < b.start <= bs[j].start && BelowFree(c, bs, lf)
    ensures var low := if lf == bs[j].start then b.start else lf;
      BelowFree(c, bs[j := b], low) && (LowestFree(c, bs, lf) || low != lf ==> LowestFree(c, bs[j := b], low))
  {
    var r, low := bs[j := b], if lf == bs[j].start then b.start else lf;
    if lf != c.memSize { MovedLists(c, bs, j, b, lf); }
    MovedStarts(c, bs, j, b);
    hide Tiled;
    forall k | 0 <= k < |r|
      ensures !r[k].used ==> low <= r[k].start
      ensures (LowestFree(c, bs, lf) || low != lf) && r[k].start == low ==> !r[k].used
    {
      assert k != j ==> r[k] == bs[k];
    }
  }

  lemma InsertedCursorBelow(c: Config, bs: seq<Block>, j: nat, b: Block, lf: nat)
    requires Tiled(c, bs) && 0 < j <= |bs| && !b.used && BelowFree(c, bs, lf)
    requires bs[j - 1].start < b.start < StartAt(c, bs, j)
    ensures var low := if b.start < lf then b.start else lf;
      BelowFree(c, Inserted(bs, j, b), low) && (LowestFree(c, bs, lf) || low != lf ==> LowestFree(c, Inserted(bs, j, b), low))
  {
    var r, low := Inserted(bs, j, b), if b.start < lf then b.start else lf;
    assert r[j] == b;
    if lf <= b.start { InsertedLists(c, bs, j, b, lf); }
    hide Inserted, Tiled;
    forall k | 0 <= k < |r|
      ensures !r[k].used ==> low <= r[k].start
      ensures (LowestFree(c, bs, lf) || low != lf) && r[k].start == low ==> !r[k].used
    {
      InsertedFrom(c, bs, j, b, k);
    }
  }

  /** Every block but the new one was there before, and does not start where the new one does. */
  lemma InsertedFrom(c: Config, bs: seq<Block>, j: nat, b: Block, k: nat)
    requires Tiled(c, bs) && 0 < j <= |bs| && bs[j - 1].start < b.start < StartAt(c, bs, j) && k < |Inserted(bs, j, b)|
    ensures k != j ==> exists l :: 0 <= l < |bs| && Inserted(bs, j, b)[k] == bs[l]
    ensures k != j ==> Inserted(bs, j, b)[k].start != b.start
    ensures k == j ==> Inserted(bs, j, b)[k] == b
  {
    var r := Inserted(bs, j, b);
    if k < j {
      assert r[k] == bs[k];
      if k < j - 1 { StartsApart(c, bs, k, j - 1); }
    }
    if j < k {
      assert r[k] == bs[k - 1];
      if j < k - 1 { StartsApart(c, bs, j, k - 1); }
    }
  }

  lemma InsertedLists(c: Config, bs: seq<Block>, j: nat, b: Block, lf: nat)
    requires Tiled(c, bs) && 0 < j <= |bs| && lf <= b.start < StartAt(c, bs, j) && (lf == c.memSize || Listed(bs, lf))
    ensures Listed(Inserted(bs, j, b), lf)
  {
    ListedIndex(bs, lf);
    var k := IndexOf(bs, lf);
    assert k < j && Inserted(bs, j, b)[k].start == lf;
  }

  lemma TrimmedCursorBelow(c: Config, bs: seq<Block>, i: nat, size: nat, lf: nat)
    requires Tiled(c, bs) && i < |bs| && bs[i].used && BelowFree(c, bs, lf)
    ensures var r, low := Trimmed(c, bs, i, size), TrimmedCursor(c, bs, i, size, lf);
      BelowFree(c, r, low) && (LowestFree(c, bs, lf) || low != lf ==> LowestFree(c, r, low))
  {
    hide LowestFree, BelowFree;
    var moved := Block(bs[i].start + c.header + size, false);
    if size < Data(c, bs, i) {
      if i + 1 < |bs| && !bs[i + 1].used {
        MovedCursorBelow(c, bs, i + 1, moved, lf);
        assert moved != bs[i + 1];
      } else if size + c.header + c.minData <= Data(c, bs, i) {
        InsertedCursorBelow(c, bs, i + 1, moved, lf);
      }
    }
  }

  // ---------- Where the cursor goes ----------

  /** Freeing never makes plug_holes move the cursor. */
  lemma CursorStays(c: Config, bs: seq<Block>, i: nat, lf: nat)
    requires Tiled(c, bs) && i < |bs| && BelowFree(c, bs, lf) && lf <= bs[i].start
    ensures PluggedCursor(bs[i := Block(bs[i].start, false)], i, lf) == lf
  {
    if i + 1 < |bs| { StartsApart(c, bs, i, i + 1); }
    if 0 < i { StartsApart(c, bs, i - 1, i); }
  }

  lemma FreedPrefix(bs: seq<Block>, i: nat)
    requires i < |bs|
    ensures i <= |Freed(bs, i)| && forall k :: 0 <= k < i ==> Freed(bs, i)[k] == bs[k]
    ensures i == 0 || bs[i - 1].used ==> i < |Freed(bs, i)| && Freed(bs, i)[i] == Block(bs[i].start, false)
  {
  }

  /** After a free the lower one of the cursor and the freed block is the cursor. */
  lemma FreedCursor(c: Config, bs: seq<Block>, i: nat, lf: nat)
    requires Tiled(c, bs) && i < |bs| && bs[i].used && BelowFree(c, bs, lf)
    ensures var low := if bs[i].start < lf then bs[i].start else lf;
      PluggedCursor(bs[i := Block(bs[i].start, false)], i, low) == low && BelowFree(c, Freed(bs, i), low)
    ensures LowestFree(c, bs, lf) || bs[i].start <= lf ==>
      LowestFree(c, Freed(bs, i), if bs[i].start < lf then bs[i].start else lf)
  {
    var low := if bs[i].start < lf then bs[i].start else lf;
    var r := Freed(bs, i);
    assert BelowFree(c, bs, low) by { assert bs[i].start == low || lf == low; }
    CursorStays(c, bs, i, low);
    assert low == c.memSize || Listed(r, low) by { FreedLists(c, bs, i, low); }
    hide Freed, PluggedCursor, Tiled;
    forall k | 0 <= k < |r|
      ensures !r[k].used ==> low <= r[k].start
      ensures r[k].start == low && (LowestFree(c, bs, lf) || low == bs[i].start) ==> !r[k].used
    {
      var l := FreedOrigin(bs, i, k);
    }
  }

  /** A header at or below the freed block survives unless a free block before it swallows it. */
  lemma FreedLists(c: Config, bs: seq<Block>, i: nat, low: nat)
    requires Tiled(c, bs) && i < |bs| && low <= bs[i].start && Listed(bs, low)
    requires 0 < i && !bs[i - 1].used ==> low <= bs[i - 1].start
    ensures Listed(Freed(bs, i), low)
  {
    FreedPrefix(bs, i);
    ListedIndex(bs, low);
    var k := IndexOf(bs, low);
    if i < k { StartsApart(c, bs, i, k); }
    if 0 < i { StartsApart(c, bs, i - 1, i); }
    assert Freed(bs, i)[k].start == low;
  }

  /** Every block left by free was there before, free if it was free before or is the freed one. */
  lemma FreedOrigin(bs: seq<Block>, i: nat, k: nat) returns (l: nat)
    requires i < |bs| && k < |Freed(bs, i)|
    ensures l < |bs| && Freed(bs, i)[k] == Block(bs[l].start, bs[l].used && l != i)
  {
    var m := bs[i := Block(bs[i].start, false)];
    var forward := if i + 1 < |m| && !m[i + 1].used then Removed(m, i + 1) else m;
    var k' := if 0 < i && !m[i - 1].used && i <= k then k + 1 else k;
    l := if |forward| < |m| && i + 1 <= k' then k' + 1 else k';
    assert Freed(bs, i)[k] == forward[k'];
    assert forward[k'] == m[l];
  }

  lemma StartsAtZero(c: Config, rs: seq<Header>, bs: seq<Block>)
    requires Spelled(c, rs, bs)
    ensures |rs| == c.memSize + 1 && 0 < |bs| && StartAt(c, bs, 0) == 0
    ensures rs[c.memSize] == Header(c.memSize, c.memSize, true)
  {
  }

  lemma NeighboursAt(c: Config, bs: seq<Block>, k: nat)
    requires WellFormed(c, bs) && 0 < k < |bs|
    ensures bs[k].start % c.align == 0 && bs[k - 1].start % c.align == 0 && StartAt(c, bs, k + 1) % c.align == 0
    ensures bs[k - 1].used || bs[k].used
  {
  }

  lemma EndIsEnd(c: Config, bs: seq<Block>, k: nat)
    requires Tiled(c, bs) && k <= |bs| && StartAt(c, bs, k) == c.memSize
    ensures k == |bs|
  {
  }

  lemma HeldIsListed(c: Config, bs: seq<Block>, p: Ptr)
    requires Holds(c, bs, p)
    ensures p.At? && Listed(bs, p.off - c.header)
  {
  }

  lemma HeldIsFreed(c: Config, bs: seq<Block>, p: Ptr)
    requires WellFormed(c, bs) && Holds(c, bs, p)
    ensures FreePtr(c, bs, p) != bs
  {
    hide Freed, Coalesced, UsedSpan;
    var i :| 0 <= i < |bs| && bs[i].used && bs[i].start + c.header == p.off;
    AlignedSum(bs[i].start, c.header, c.align);
    ListedIndex(bs, bs[i].start);
    FreedFacts(c, bs, i);
    assert IndexOf(bs, bs[i].start) == i;
  }

  lemma HeldIsLive(c: Config, bs: seq<Block>, p: Ptr) returns (e: int)
    requires Holds(c, bs, p)
    ensures Live(c, bs, p.off - c.header, e)
  {
    var i :| 0 <= i < |bs| && bs[i].used && bs[i].start + c.header == p.off;
    e := StartAt(c, bs, i + 1);
    assert LiveAt(c, bs, i, bs[i].start, e);
  }

  lemma LiveIsHeld(c: Config, bs: seq<Block>, p: Ptr, e: int)
    requires p.At? && Live(c, bs, p.off - c.header, e)
    ensures Holds(c, bs, p)
  {
    var k :| LiveAt(c, bs, k, p.off - c.header, e);
    assert bs[k].start + c.header == p.off;
  }

  /** A block that nobody frees or trims stays held. */
  lemma SparedStaysHeld(c: Config, bs: seq<Block>, ops: seq<Op>, p: Ptr)
    requires WellFormed(c, bs) && Holds(c, bs, p) && Sparing(c, ops, p)
    ensures Holds(c, Run(c, bs, ops), p)
  {
    hide Tiled, Coalesced, Run;
    var e := HeldIsLive(c, bs, p);
    assert p == At(p.off - c.header + c.header);
    hide Holds;
    ReleasesLive(c, bs, ops, p.off - c.header, e);
    LiveIsHeld(c, Run(c, bs, ops), p, e);
  }

  lemma NothingDone(c: Config, bs: seq<Block>, keep: Ptr)
    ensures Run(c, bs, []) == bs && Sparing(c, [], keep)
  {
  }

  lemma OneMoreDone(c: Config, bs: seq<Block>, ops: seq<Op>, op: Op, keep: Ptr)
    requires Sparing(c, ops, keep) && Releases(c, op) && op.p != keep
    ensures Run(c, bs, ops + [op]) == Apply(c, Run(c, bs, ops), op) && Sparing(c, ops + [op], keep)
  {
    assert (ops + [op])[..|ops|] == ops;
  }

  lemma BothSparing(c: Config, a: seq<Op>, b: seq<Op>, keep: Ptr)
    requires Sparing(c, a, keep) && Sparing(c, b, keep)
    ensures Sparing(c, a + b, keep)
  {
  }

  lemma TakenIsHeld(c: Config, bs: seq<Block>, k: nat)
    requires k < |bs| && bs[k].used
    ensures Holds(c, bs, At(bs[k].start + c.header))
  {
  }

  // ---------- What the two walks along the list conclude ----------

  lemma StartInside(c: Config, bs: seq<Block>, k: nat)
    requires Tiled(c, bs) && k <= |bs| && StartAt(c, bs, k) < c.memSize
    ensures k < |bs|
  {
  }

  /** The cursor is the start of some block with only used ones before it. */
  lemma CursorIndex(c: Config, bs: seq<Block>, lf: nat) returns (k: nat)
    requires Tiled(c, bs) && BelowFree(c, bs, lf)
    ensures k <= |bs| && StartAt(c, bs, k) == lf
    ensures forall j :: 0 <= j < k ==> bs[j].used
  {
    if lf == c.memSize {
      k := |bs|;
    } else {
      ListedIndex(bs, lf);
      k := IndexOf(bs, lf);
      forall j | 0 <= j < k ensures bs[j].used { StartsApart(c, bs, j, k); }
    }
  }

  lemma CursorIsFirstFree(c: Config, bs: seq<Block>, lf: nat)
    requires Tiled(c, bs) && LowestFree(c, bs, lf)
    ensures lf == StartAt(c, bs, FirstFree(bs)) && forall j :: 0 <= j < FirstFree(bs) ==> bs[j].used
  {
    var k := CursorIndex(c, bs, lf);
  }

  lemma CursorAt(c: Config, bs: seq<Block>, k: nat, lf: nat, i: nat)
    requires Tiled(c, bs) && BelowFree(c, bs, lf) && i <= k <= |bs| && i < |bs| && lf == bs[i].start
    requires forall l :: i <= l < k ==> bs[l].used
    requires k < |bs| ==> !bs[k].used
    ensures LowestFree(c, bs, StartAt(c, bs, k))
  {
    if k < |bs| {
      forall l | 0 <= l < |bs| && !bs[l].used ensures bs[k].start <= bs[l].start {
        if k < l { StartsApart(c, bs, k, l); }
      }
      forall l | 0 <= l < |bs| && bs[l].start == bs[k].start ensures l == k {}
    }
  }

  lemma FirstFitIs(c: Config, bs: seq<Block>, size: nat, k: nat)
    requires k <= |bs| && forall j :: 0 <= j < k ==> !Fits(c, bs, size, j)
    requires k < |bs| ==> Fits(c, bs, size, k)
    ensures FirstFit(c, bs, size, 0) == k
  {
  }

  /** Where the scan stops, no block can hold the request any more. */
  lemma NothingFitsBeyond(c: Config, bs: seq<Block>, size: nat, k: nat)
    requires Tiled(c, bs) && k <= |bs| && c.memSize - size <= StartAt(c, bs, k)
    requires forall j :: 0 <= j < k ==> !Fits(c, bs, size, j)
    ensures forall j :: 0 <= j < |bs| ==> !Fits(c, bs, size, j)
  {
    forall j | k <= j < |bs| ensures !Fits(c, bs, size, j) {
      if k < j { StartsApart(c, bs, k, j); }
      if j + 1 < |bs| { StartsApart(c, bs, j, j + 1); }
    }
  }

  class MemHeap {
    const c: Config
    /** The header that starts at each offset of the heap; only block starts and the end matter. */
    const ram: array<Header>
    var lfree: nat
    /** The statistics `used` and `illegal`. */
    var statUsed: nat
    var statIllegal: nat
    /** Set by mem_free so that an interrupted mem_malloc notices. */
    var memFreeCount: bool

    ghost var blocks: seq<Block>

    ghost predicate Linked()
      reads this, ram
    {
      Spelled(c, ram[..], blocks)
    }

    /** What holds whenever the heap is unlocked, also in the middle of mem_malloc. */
    ghost predicate Consistent()
      reads this, ram
    {
      && Linked()
      && WellFormed(c, blocks)
      && BelowFree(c, blocks, lfree)
      && statUsed == UsedSpan(blocks, c.memSize)
    }

    /** What holds between calls: `lfree` is moreover exactly the lowest free block. */
    ghost predicate Valid()
      reads this, ram
    {
      Consistent() && LowestFree(c, blocks, lfree)
    }

    /** mem_init */
    constructor (c: Config)
      ensures Valid() && fresh(ram) && this.c == c
      ensures blocks == Initial() && statUsed == 0 && statIllegal == 0 && !memFreeCount
    {
      this.c := c;
      ram := new Header[c.memSize + 1](_ => Header(0, 0, false));
      lfree, statUsed, statIllegal, memFreeCount := 0, 0, 0, false;
      blocks := Initial();
      new;
      ram[0] := Header(c.memSize, 0, false);
      ram[c.memSize] := Header(c.memSize, c.memSize, true);
      ModOfMultiple(0, c.align);
      SpanOne(Block(0, false), c.memSize);
      assert Listed(blocks, 0) by { assert blocks[0].start == 0; }
    }

    /** One half of plug_holes: the free block at `upper` joins the free block at `lower` before it. */
    method Absorb(lower: nat, upper: nat, ghost j: nat)
      requires Linked() && 0 < j < |blocks|
      requires blocks[j - 1] == Block(lower, false) && blocks[j] == Block(upper, false)
      modifies this`lfree, this`blocks, ram
      ensures Linked() && blocks == Removed(old(blocks), j)
      ensures lfree == if old(lfree) == upper then lower else old(lfree)
    {
      hide Spelled, Tiled;
      ReadHeader(c, ram[..], blocks, j - 1);
      ReadHeader(c, ram[..], blocks, j);
      if lfree == upper {
        lfree := lower;
      }
      var next := ram[upper].next;
      ram[lower] := ram[lower].(next := next);
      if next != c.memSize {
        ram[next] := ram[next].(prev := lower);
      }
      AbsorbSpelled(c, old(ram[..]), ram[..], blocks, j);
      blocks := Removed(blocks, j);
    }

    /** plug_holes: merge the free block at `mem` with its free neighbours. */
    method PlugHoles(mem: nat, ghost i: nat)
      requires Linked() && i < |blocks| && blocks[i] == Block(mem, false)
      modifies this`lfree, this`blocks, ram
      ensures Linked() && blocks == Plugged(old(blocks), i)
      ensures lfree == PluggedCursor(old(blocks), i, old(lfree))
    {
      hide Spelled, Tiled, Removed, HeaderOf;
      ghost var bs := blocks;
      if i + 1 < |bs| { RemovedBehind(bs, i); }
      ReadHeader(c, ram[..], blocks, i);
      PrevHeader(c, bs, i);
      var nmem := ram[mem].next;
      if mem != nmem && !ram[nmem].used && nmem != c.memSize {
        Absorb(mem, nmem, i + 1);
      }
      ReadHeader(c, ram[..], blocks, i);
      PrevHeader(c, blocks, i);
      var pmem := ram[mem].prev;
      if pmem != mem && !ram[pmem].used {
        Absorb(pmem, mem, i);
      }
    }

    /** mem_free, once the pointer has been checked. */
    method Release(mem: nat, ghost i: nat)
      requires Consistent() && i < |blocks| && blocks[i] == Block(mem, true)
      modifies this`lfree, this`statUsed, this`blocks, ram
      ensures Consistent() && blocks == Freed(old(blocks), i)
      ensures statUsed < old(statUsed)
      ensures lfree == if mem < old(lfree) then mem else old(lfree)
      ensures lfree != old(lfree) ==> LowestFree(c, blocks, lfree)
      ensures old(LowestFree(c, blocks, lfree)) ==> LowestFree(c, blocks, lfree)
    {
      hide Spelled, Tiled, Coalesced, BelowFree, LowestFree, UsedSpan, Plugged, PluggedCursor;
      ghost var bs := blocks;
      FreedCursor(c, bs, i, lfree);
      FreedFacts(c, bs, i);
      ReadHeader(c, ram[..], bs, i);
      ram[mem] := ram[mem].(used := false);
      if mem < lfree {
        lfree := mem;
      }
      statUsed := statUsed - (ram[mem].next - mem);
      MarkedSpelled(c, old(ram[..]), ram[..], bs, i, false);
      blocks := bs[i := Block(mem, false)];
      PlugHoles(mem, i);
    }

    /** mem_free */
    method Free(rmem: Ptr)
      requires Consistent()
      requires Rejected(c, rmem) || Listed(blocks, rmem.off - c.header)
      modifies this`lfree, this`statUsed, this`statIllegal, this`memFreeCount, this`blocks, ram
      ensures Consistent() && blocks == FreePtr(c, old(blocks), rmem)
      ensures statIllegal == old(statIllegal) + if rmem.At? && blocks == old(blocks) then 1 else 0
      ensures memFreeCount == (old(memFreeCount) || blocks != old(blocks))
      ensures blocks != old(blocks) ==> statUsed < old(statUsed)
      ensures lfree == if blocks != old(blocks) && rmem.off - c.header < old(lfree)
                       then rmem.off - c.header else old(lfree)
      ensures lfree != old(lfree) ==> LowestFree(c, blocks, lfree)
      ensures old(LowestFree(c, blocks, lfree)) ==> LowestFree(c, blocks, lfree)
    {
      hide Spelled, Tiled, Coalesced, BelowFree, LowestFree, UsedSpan, Freed, IndexOf;
      if rmem == Null {
        return;
      }
      if rmem.off % c.align != 0 {
        statIllegal := statIllegal + 1;
        return;
      }
      if rmem.off - c.header < 0 || c.memSize < rmem.off + c.minData {
        statIllegal := statIllegal + 1;
        return;
      }
      var mem := rmem.off - c.header;
      ghost var i := IndexOf(blocks, mem);
      ListedIndex(blocks, mem);
      ReadHeader(c, ram[..], blocks, i);
      LinksAreValid(c, ram[..], blocks, i);
      if !ram[mem].used || !LinkValid(c, ram[..], mem) {
        statIllegal := statIllegal + 1;
        return;
      }
      FreedFacts(c, blocks, i);
      Release(mem, i);
      memFreeCount := true;
    }

    /** mem_malloc, once a fitting block has been found: split it if the rest can hold a block. */
    method TakeBlock(mem: nat, size: nat, ghost i: nat)
      requires Consistent() && i < |blocks| && blocks[i].start == mem && Fits(c, blocks, size, i)
      requires c.minData <= size && size % c.align == 0
      modifies this`statUsed, this`blocks, ram
      ensures Consistent() && blocks == Allocated(c, old(blocks), i, size)
      ensures i < |blocks| && blocks[i] == Block(mem, true)
      ensures old(LowestFree(c, blocks, lfree)) && lfree != mem ==> LowestFree(c, blocks, lfree)
    {
      hide Spelled, Tiled, Coalesced, BelowFree, LowestFree, UsedSpan;
      ghost var bs := blocks;
      AllocatedFacts(c, bs, i, size, lfree);
      ReadHeader(c, ram[..], bs, i);
      var next := ram[mem].next;
      if size + c.header + c.minData <= next - (mem + c.header) {
        var ptr2 := mem + c.header + size;
        ram[ptr2] := Header(next, mem, false);
        ram[mem] := Header(ptr2, ram[mem].prev, true);
        if next != c.memSize {
          ram[next] := ram[next].(prev := ptr2);
        }
        statUsed := statUsed + size + c.header;
        ghost var marked := old(ram[..])[mem := old(ram[mem]).(used := true)];
        MarkedSpelled(c, old(ram[..]), marked, bs, i, true);
        InsertedSpelled(c, marked, ram[..], bs[i := Block(mem, true)], i + 1, Block(ptr2, false));
      } else {
        ram[mem] := ram[mem].(used := true);
        statUsed := statUsed + (next - mem);
        MarkedSpelled(c, old(ram[..]), ram[..], bs, i, true);
      }
      blocks := Allocated(c, bs, i, size);
    }

    /** The first case of mem_trim: the free block behind `mem` starts earlier. */
    method MoveFree(mem: nat, newsize: nat, ghost i: nat)
      requires Consistent() && i + 1 < |blocks| && blocks[i] == Block(mem, true) && !blocks[i + 1].used
      requires c.minData <= newsize < Data(c, blocks, i) && newsize % c.align == 0
      modifies this`lfree, this`statUsed, this`blocks, ram
      ensures Consistent() && blocks == Trimmed(c, old(blocks), i, newsize) && statUsed < old(statUsed)
      ensures lfree == TrimmedCursor(c, old(blocks), i, newsize, old(lfree))
      ensures old(LowestFree(c, blocks, lfree)) || lfree != old(lfree) ==> LowestFree(c, blocks, lfree)
    {
      hide Spelled, Tiled, Coalesced, BelowFree, LowestFree, UsedSpan;
      ghost var bs := blocks;
      TrimmedFacts(c, bs, i, newsize, lfree);
      ReadHeader(c, ram[..], bs, i);
      ReadHeader(c, ram[..], bs, i + 1);
      var size := ram[mem].next - mem - c.header;
      var mem2 := ram[mem].next;
      var next := ram[mem2].next;
      var ptr2 := mem + c.header + newsize;
      if lfree == mem2 {
        lfree := ptr2;
      }
      ram[ptr2] := Header(next, mem, false);
      ram[mem] := ram[mem].(next := ptr2);
      if next != c.memSize {
        ram[next] := ram[next].(prev := ptr2);
      }
      statUsed := statUsed - (size - newsize);
      MovedSpelled(c, old(ram[..]), ram[..], bs, i + 1, Block(ptr2, false));
      blocks := Trimmed(c, bs, i, newsize);
    }

    /** The second case of mem_trim: the cut-off end becomes a free block of its own. */
    method SplitOff(mem: nat, newsize: nat, ghost i: nat)
      requires Consistent() && i < |blocks| && blocks[i] == Block(mem, true)
      requires i + 1 < |blocks| ==> blocks[i + 1].used
      requires c.minData <= newsize && newsize % c.align == 0
      requires newsize + c.header + c.minData <= Data(c, blocks, i)
      modifies this`lfree, this`statUsed, this`blocks, ram
      ensures Consistent() && blocks == Trimmed(c, old(blocks), i, newsize) && statUsed < old(statUsed)
      ensures lfree == TrimmedCursor(c, old(blocks), i, newsize, old(lfree))
      ensures old(LowestFree(c, blocks, lfree)) || lfree != old(lfree) ==> LowestFree(c, blocks, lfree)
    {
      hide Spelled, Tiled, Coalesced, BelowFree, LowestFree, UsedSpan, Inserted;
      ghost var bs := blocks;
      TrimmedFacts(c, bs, i, newsize, lfree);
      ReadHeader(c, ram[..], bs, i);
      var next := ram[mem].next;
      var size := next - mem - c.header;
      var ptr2 := mem + c.header + newsize;
      if ptr2 < lfree {
        lfree := ptr2;
      }
      ram[ptr2] := Header(next, mem, false);
      ram[mem] := ram[mem].(next := ptr2);
      if next != c.memSize {
        ram[next] := ram[next].(prev := ptr2);
      }
      statUsed := statUsed - (size - newsize);
      InsertedSpelled(c, old(ram[..]), ram[..], bs, i + 1, Block(ptr2, false));
      blocks := Trimmed(c, bs, i, newsize);
    }

    /** mem_trim, once the pointer and the size have been checked. */
    method Shrink(mem: nat, newsize: nat, ghost i: nat) returns (r: Ptr)
      requires Consistent() && i < |blocks| && blocks[i] == Block(mem, true)
      requires c.minData <= newsize && newsize % c.align == 0
      modifies this`lfree, this`statUsed, this`memFreeCount, this`blocks, ram
      ensures Consistent() && blocks == Trimmed(c, old(blocks), i, newsize)
      ensures if blocks != old(blocks) then statUsed < old(statUsed) else statUsed == old(statUsed) && lfree == old(lfree)
      ensures old(LowestFree(c, blocks, lfree)) || lfree != old(lfree) ==> LowestFree(c, blocks, lfree)
      ensures r == if Data(c, old(blocks), i) < newsize then Null else At(mem + c.header)
      ensures memFreeCount == (old(memFreeCount) || newsize < Data(c, old(blocks), i))
    {
      hide Spelled, Tiled, Coalesced, BelowFree, LowestFree, UsedSpan;
      ReadHeader(c, ram[..], blocks, i);
      var size := ram[mem].next - mem - c.header;
      if newsize > size {
        return Null;
      }
      r := At(mem + c.header);
      if newsize == size {
        return;
      }
      if !ram[ram[mem].next].used {
        MoveFree(mem, newsize, i);
      } else if newsize + c.header + c.minData <= size {
        SplitOff(mem, newsize, i);
      }
      memFreeCount := true;
    }

    /** mem_trim; the result is the pointer, or Null when the block would have to grow. */
    method Trim(rmem: Ptr, newSize: nat) returns (r: Ptr)
      requires Consistent() && newSize < c.width
      requires InHeap(c, rmem) ==> Holds(c, blocks, rmem)
      modifies this`lfree, this`statUsed, this`statIllegal, this`memFreeCount, this`blocks, ram
      ensures Consistent() && (blocks, r) == TrimPtr(c, old(blocks), rmem, newSize)
      ensures memFreeCount == (old(memFreeCount) || Disturbs(c, old(blocks), DoTrim(rmem, newSize)))
      ensures if blocks != old(blocks) then statUsed < old(statUsed) else statUsed == old(statUsed) && lfree == old(lfree)
      ensures old(LowestFree(c, blocks, lfree)) || lfree != old(lfree) ==> LowestFree(c, blocks, lfree)
      ensures statIllegal == old(statIllegal) + if Rounded(c, newSize) != 0 && !InHeap(c, rmem) then 1 else 0
    {
      hide Spelled, Coalesced, BelowFree, LowestFree, UsedSpan, Rounded, Tiled, Disturbs, Holds, Trimmed, TrimPtr;
      var size := Rounded(c, newSize);
      TrimOutside(c, blocks, rmem, newSize);
      if size == 0 {
        return Null;
      }
      RoundedAligned(c, newSize);
      if rmem == Null || rmem.off < 0 || c.memSize <= rmem.off {
        statIllegal := statIllegal + 1;
        return rmem;
      }
      ghost var i := HeldIndex(c, blocks, rmem);
      TrimHeld(c, blocks, rmem, newSize, i);
      r := Shrink(rmem.off - c.header, size, i);
    }

    /** The end of mem_malloc: when the cursor stands on the block just taken, walk to the next free one. */
    method AdvanceCursor(mem: nat, ghost i: nat)
      requires Consistent() && i < |blocks| && blocks[i] == Block(mem, true)
      requires lfree != mem ==> LowestFree(c, blocks, lfree)
      modifies this`lfree
      ensures Valid()
    {
      hide Spelled, Tiled, Coalesced, BelowFree, UsedSpan;
      if mem == lfree {
        var cur := lfree;
        ghost var bs, k := blocks, i;
        assert BelowFree(c, bs, cur);
        ReadHeader(c, ram[..], bs, i);
        while cur != c.memSize && ram[cur].used
          invariant cur < ram.Length
          invariant i <= k <= |bs| && cur == StartAt(c, bs, k)
          invariant forall l :: i <= l < k ==> bs[l].used
          decreases |bs| - k
        {
          StartInside(c, bs, k);
          ReadHeader(c, ram[..], bs, k);
          cur := ram[cur].next;
          k := k + 1;
        }
        if k < |bs| { ReadHeader(c, ram[..], bs, k); }
        CursorAt(c, bs, k, mem, i);
        lfree := cur;
      }
    }

    /** mem_malloc without LWIP_ALLOW_MEM_FREE_FROM_OTHER_CONTEXT. */
    method Malloc(sizeIn: nat) returns (r: Ptr)
      requires Valid() && sizeIn < c.width
      modifies this`lfree, this`statUsed, this`blocks, ram
      ensures Valid() && (blocks, r) == HeapSpec.Malloc(c, old(blocks), sizeIn)
    {
      hide Spelled, Tiled, Coalesced, BelowFree, UsedSpan, Rounded, Allocated, FirstFit;
      var size := Rounded(c, sizeIn);
      if sizeIn == 0 || size == 0 {
        return Null;
      }
      RoundedAligned(c, sizeIn);
      ghost var k := CursorIndex(c, blocks, lfree);
      var ptr := lfree;
      while ptr < c.memSize - size
        invariant Valid() && blocks == old(blocks)
        invariant 0 <= k <= |blocks| && ptr == StartAt(c, blocks, k)
        invariant forall j :: 0 <= j < k ==> !Fits(c, blocks, size, j)
        decreases |blocks| - k
      {
        StartInside(c, blocks, k);
        ReadHeader(c, ram[..], blocks, k);
        var mem := ptr;
        if !ram[mem].used && size <= ram[mem].next - (ptr + c.header) {
          FirstFitIs(c, blocks, size, k);
          TakeBlock(mem, size, k);
          AdvanceCursor(mem, k);
          return At(mem + c.header);
        }
        ptr := ram[ptr].next;
        k := k + 1;
      }
      NothingFitsBeyond(c, blocks, size, k);
      FirstFitIs(c, blocks, size, |blocks|);
      return Null;
    }

    /** Whether p is the data of an allocated block, found by walking the list. */
    method IsHeld(p: Ptr) returns (b: bool)
      requires Consistent()
      ensures b == Holds(c, blocks, p)
    {
      hide Spelled, Tiled, Coalesced, BelowFree, UsedSpan;
      if p == Null {
        return false;
      }
      var cur := 0;
      ghost var k := 0;
      StartsAtZero(c, ram[..], blocks);
      while cur != c.memSize
        invariant cur < ram.Length
        invariant 0 <= k <= |blocks| && cur == StartAt(c, blocks, k)
        invariant forall l :: 0 <= l < k ==> !(blocks[l].used && blocks[l].start + c.header == p.off)
        decreases |blocks| - k
      {
        StartInside(c, blocks, k);
        ReadHeader(c, ram[..], blocks, k);
        if cur + c.header == p.off && ram[cur].used {
          return true;
        }
        cur := ram[cur].next;
        k := k + 1;
      }
      EndIsEnd(c, blocks, k);
      return false;
    }

    /** The blocks as the headers spell them out. */
    method BlockList() returns (bs: seq<Block>)
      requires Consistent()
      ensures bs == blocks
    {
      hide Spelled, Tiled, Coalesced, BelowFree, UsedSpan;
      bs := [];
      var cur := 0;
      StartsAtZero(c, ram[..], blocks);
      while cur != c.memSize
        invariant cur < ram.Length && |bs| <= |blocks| && bs == blocks[..|bs|] && cur == StartAt(c, blocks, |bs|)
        decreases |blocks| - |bs|
      {
        StartInside(c, blocks, |bs|);
        ReadHeader(c, ram[..], blocks, |bs|);
        bs := bs + [Block(cur, ram[cur].used)];
        cur := ram[cur].next;
      }
      EndIsEnd(c, blocks, |bs|);
    }

    /** Other contexts run at unlock point n: every free and trim of theirs takes effect if they hold the block,
        and it is not the one being handed out. */
    method OtherContexts(env: Others, n: nat, keep: Ptr) returns (ghost done: seq<Op>)
      requires Consistent() && !memFreeCount && Releasing(c, env)
      modifies this`lfree, this`statUsed, this`statIllegal, this`memFreeCount, this`blocks, ram
      ensures Consistent()
      ensures (blocks, memFreeCount) == Meanwhile(c, env, n, keep, old(blocks), env.count(n))
      ensures blocks == Run(c, old(blocks), done) && Sparing(c, done, keep)
      ensures blocks == old(blocks) ==> lfree == old(lfree)
      ensures lfree == old(lfree) || LowestFree(c, blocks, lfree)
      ensures old(LowestFree(c, blocks, lfree)) ==> LowestFree(c, blocks, lfree)
    {
      hide Spelled, Tiled, Coalesced, BelowFree, LowestFree, UsedSpan, Rejected, Disturbs, Run, Sparing, Apply, Holds;
      done := [];
      NothingDone(c, blocks, keep);
      for j := 0 to env.count(n)
        invariant Consistent()
        invariant (blocks, memFreeCount) == Meanwhile(c, env, n, keep, old(blocks), j)
        invariant blocks == Run(c, old(blocks), done) && Sparing(c, done, keep)
        invariant statUsed < old(statUsed) || (statUsed == old(statUsed) && lfree == old(lfree))
        invariant lfree == old(lfree) || LowestFree(c, blocks, lfree)
        invariant old(LowestFree(c, blocks, lfree)) ==> LowestFree(c, blocks, lfree)
      {
        var bs := BlockList();
        var op := env.op(n, j, bs);
        assert Releases(c, op);
        var held := IsHeld(op.p);
        if held && op.p != keep {
          OneMoreDone(c, old(blocks), done, op, keep);
          Perform(op);
          done := done + [op];
        }
      }
    }

    /** One of them */
    method Perform(op: Op)
      requires Consistent() && Releases(c, op) && Holds(c, blocks, op.p)
      modifies this`lfree, this`statUsed, this`statIllegal, this`memFreeCount, this`blocks, ram
      ensures Consistent() && blocks == Apply(c, old(blocks), op)
      ensures statUsed < old(statUsed) || (op.DoTrim? && blocks == old(blocks) && lfree == old(lfree) && statUsed == old(statUsed))
      ensures memFreeCount == (old(memFreeCount) || Disturbs(c, old(blocks), op))
      ensures old(LowestFree(c, blocks, lfree)) || lfree != old(lfree) ==> LowestFree(c, blocks, lfree)
      ensures !old(memFreeCount) && !memFreeCount ==> blocks == old(blocks)
    {
      hide Spelled, Tiled, Coalesced, BelowFree, LowestFree, UsedSpan, Rejected, Disturbs;
      match op {
        case DoFree(p) =>
          HeldIsListed(c, blocks, p);
          HeldIsFreed(c, blocks, p);
          TrimChanges(c, blocks, p, 0);
          Free(p);
        case DoTrim(p, n) =>
          TrimChanges(c, blocks, p, n);
          var r := Trim(p, n);
      }
    }

    /** One walk from the block just taken to the next free one, with an unlock point at
        each step; it gives up when another context did something meanwhile. */
    method WalkInterrupted(mem: nat, env: Others, first: nat)
      returns (cur: nat, n: nat, ghost done: seq<Op>)
      requires Consistent() && Holds(c, blocks, At(mem + c.header)) && lfree == mem && !memFreeCount
      requires Releasing(c, env)
      modifies this`lfree, this`statUsed, this`statIllegal, this`memFreeCount, this`blocks, ram
      ensures Consistent()
      ensures blocks == Run(c, old(blocks), done) && Sparing(c, done, At(mem + c.header))
      ensures first < n && (lfree == mem || LowestFree(c, blocks, lfree))
      ensures !memFreeCount ==> blocks == old(blocks) && LowestFree(c, blocks, cur)
      ensures forall k :: first <= k < n - 1 ==>
        Meanwhile(c, env, k, At(mem + c.header), old(blocks), env.count(k)) == (old(blocks), false)
      ensures (blocks, memFreeCount) == Meanwhile(c, env, n - 1, At(mem + c.header), old(blocks), env.count(n - 1))
    {
      hide Spelled, Tiled, Coalesced, BelowFree, LowestFree, UsedSpan, Holds, Run, Sparing, Meanwhile;
      cur, n, done := lfree, first, [];
      NothingDone(c, blocks, At(mem + c.header));
      ghost var i := HeldIndex(c, blocks, At(mem + c.header));
      ghost var k := i;
      ReadHeader(c, ram[..], blocks, i);
      while cur != c.memSize && ram[cur].used
        invariant Consistent() && !memFreeCount && cur < ram.Length && done == []
        invariant blocks == old(blocks) && lfree == mem
        invariant i <= k <= |blocks| && cur == StartAt(c, blocks, k) && n == first + (k - i)
        invariant forall l :: first <= l < n ==> Meanwhile(c, env, l, At(mem + c.header), blocks, env.count(l)) == (blocks, false)
        invariant forall l :: i <= l < k ==> blocks[l].used
        decreases |blocks| - k
      {
        StartInside(c, blocks, k);
        ReadHeader(c, ram[..], blocks, k);
        MeanwhileChanges(c, env, n, At(mem + c.header), blocks, env.count(n));
        done := OtherContexts(env, n, At(mem + c.header));
        n := n + 1;
        if memFreeCount {
          return;
        }
        done := [];
        ReadHeader(c, ram[..], blocks, k);
        cur := ram[cur].next;
        k := k + 1;
      }
      if k < |blocks| { ReadHeader(c, ram[..], blocks, k); }
      CursorAt(c, blocks, k, mem, i);
    }

    /** The end of mem_malloc with unlock points: what another context did meanwhile restarts the walk. */
    method AdvanceCursorInterrupted(mem: nat, env: Others, first: nat, ghost quiet: nat) returns (ghost late: seq<Op>)
      requires Consistent() && Holds(c, blocks, At(mem + c.header)) && Releasing(c, env) && Quiet(c, env, quiet)
      requires lfree != mem ==> LowestFree(c, blocks, lfree)
      modifies this`lfree, this`statUsed, this`statIllegal, this`memFreeCount, this`blocks, ram
      ensures Valid() && blocks == Run(c, old(blocks), late) && Sparing(c, late, At(mem + c.header))
    {
      hide Spelled, Tiled, Coalesced, BelowFree, UsedSpan, Holds, Run, Sparing, Releasing, Meanwhile, FutileAt;
      var n := first;
      late := [];
      NothingDone(c, blocks, At(mem + c.header));
      while mem == lfree
        invariant Consistent() && Holds(c, blocks, At(mem + c.header))
        invariant lfree != mem ==> LowestFree(c, blocks, lfree)
        invariant blocks == Run(c, old(blocks), late) && Sparing(c, late, At(mem + c.header))
        decreases statUsed, quiet - n
      {
        ghost var before := blocks;
        memFreeCount := false;
        var cur; ghost var more;
        cur, n, more := WalkInterrupted(mem, env, n);
        MeanwhileChanges(c, env, n - 1, At(mem + c.header), before, env.count(n - 1));
        RunConcat(c, old(blocks), late, more);
        BothSparing(c, late, more, At(mem + c.header));
        SparedStaysHeld(c, before, more, At(mem + c.header));
        late := late + more;
        if !memFreeCount {
          lfree := cur;
          break;
        }
      }
    }

    /** mem_malloc with LWIP_ALLOW_MEM_FREE_FROM_OTHER_CONTEXT, where `env` is what other contexts do at its unlock
        points. `before` is the block list at the moment the request was decided, `early` and `late` what was done up
        to then and from then on. A trim that changes nothing restarts mem_malloc too, so it returns only if there is
        an end to those: there are none from the unlock point `quiet` on. */
    method MallocInterrupted(sizeIn: nat, env: Others, ghost quiet: nat)
      returns (r: Ptr, ghost early: seq<Op>, ghost before: seq<Block>, ghost late: seq<Op>)
      requires Valid() && sizeIn < c.width && Releasing(c, env) && Quiet(c, env, quiet)
      modifies this`lfree, this`statUsed, this`statIllegal, this`memFreeCount, this`blocks, ram
      ensures Valid()
      ensures before == Run(c, old(blocks), early) && Sparing(c, early, Null)
      ensures r == HeapSpec.Malloc(c, before, sizeIn).1
      ensures blocks == Run(c, HeapSpec.Malloc(c, before, sizeIn).0, late)
      ensures Sparing(c, late, r) && (r == Null ==> late == [])
      ensures 0 < sizeIn && Rounded(c, sizeIn) != 0 ==> !NeverEnds(c, env, Rounded(c, sizeIn), 0, old(blocks))
    {
      hide Spelled, Tiled, Coalesced, BelowFree, UsedSpan, Rounded, Allocated, FirstFit, Run, Sparing, Releasing, Scan, FutileAt, NeverEnds;
      early, before, late := [], blocks, [];
      NothingDone(c, blocks, Null);
      var size := Rounded(c, sizeIn);
      if sizeIn == 0 || size == 0 {
        return Null, early, before, late;
      }
      RoundedAligned(c, sizeIn);
      var n := 0;
      while true
        invariant Valid() && blocks == Run(c, old(blocks), early) && Sparing(c, early, Null)
        invariant NeverEnds(c, env, size, 0, old(blocks)) ==> NeverEnds(c, env, size, n, blocks)
        decreases statUsed, quiet - n
      {
        ScanEnds(c, env, size, n, blocks, FirstFree(blocks));
        NeverEndsRestarts(c, env, size, n, blocks);
        memFreeCount := false;
        var found, ptr; ghost var k, more;
        found, ptr, n, k, more := ScanInterrupted(size, env, n);
        RunConcat(c, old(blocks), early, more);
        BothSparing(c, early, more, Null);
        early := early + more;
        if found {
          before := blocks;
          TakeBlock(ptr, size, k);
          TakenIsHeld(c, blocks, k);
          late := AdvanceCursorInterrupted(ptr, env, n, quiet);
          return At(ptr + c.header), early, before, late;
        }
        if !memFreeCount {
          NothingDone(c, blocks, Null);
          return Null, early, blocks, [];
        }
      }
    }

    /** One scan for a fitting block with an unlock point at each step; what another context does meanwhile ends it. */
    method ScanInterrupted(size: nat, env: Others, first: nat)
      returns (found: bool, ptr: nat, n: nat, ghost k: nat, ghost done: seq<Op>)
      requires Valid() && !memFreeCount && size <= c.memSize && Releasing(c, env)
      modifies this`lfree, this`statUsed, this`statIllegal, this`memFreeCount, this`blocks, ram
      ensures Valid() && blocks == Run(c, old(blocks), done) && Sparing(c, done, Null)
      ensures Scan(c, env, size, first, old(blocks), FirstFree(old(blocks)))
           == if found then Found(k, n) else if memFreeCount then Restart(n, blocks) else NoFit(n)
      ensures found ==> k < |blocks| && blocks[k].start == ptr && FirstFit(c, blocks, size, 0) == k
      ensures !found && !memFreeCount ==> blocks == old(blocks) && FirstFit(c, blocks, size, 0) == |blocks|
      ensures found ==> blocks == old(blocks) && !memFreeCount
    {
      hide Spelled, Tiled, Coalesced, BelowFree, UsedSpan, FirstFit, Run, Sparing, Meanwhile;
      found, n, done := false, first, [];
      NothingDone(c, blocks, Null);
      CursorIsFirstFree(c, blocks, lfree);
      k := FirstFree(blocks);
      ptr := lfree;
      while ptr < c.memSize - size
        invariant Valid() && blocks == old(blocks) && !memFreeCount && done == []
        invariant 0 <= k <= |blocks| && ptr == StartAt(c, blocks, k)
        invariant Scan(c, env, size, first, old(blocks), FirstFree(old(blocks))) == Scan(c, env, size, n, blocks, k)
        invariant forall j :: 0 <= j < k ==> !Fits(c, blocks, size, j)
        decreases |blocks| - k
      {
        MeanwhileChanges(c, env, n, Null, blocks, env.count(n));
        StartInside(c, blocks, k);
        done := OtherContexts(env, n, Null);
        n := n + 1;
        if memFreeCount {
          return;
        }
        done := [];
        ReadHeader(c, ram[..], blocks, k);
        if !ram[ptr].used && size <= ram[ptr].next - (ptr + c.header) {
          FirstFitIs(c, blocks, size, k);
          found := true;
          return;
        }
        ptr := ram[ptr].next;
        k := k + 1;
      }
      NothingFitsBeyond(c, blocks, size, k);
      FirstFitIs(c, blocks, size, |blocks|);
    }

    /** mem_sanity: the assertions it makes while walking the heap all hold. */
    method Sanity() returns (ok: bool)
      requires Consistent()
      ensures ok
    {
      hide Spelled, Tiled, Coalesced, BelowFree, UsedSpan, LinkValid;
      StartsAtZero(c, ram[..], blocks);
      ghost var k := 0;
      ReadHeader(c, ram[..], blocks, 0);
      var lastUsed := ram[0].used;
      if ram[0].prev != 0 || c.memSize < ram[0].next {
        return false;
      }
      var mem := ram[0].next;
      k := 1;
      while 0 < mem && mem < c.memSize
        invariant 0 < mem < ram.Length && 1 <= k <= |blocks| && mem == StartAt(c, blocks, k)
        invariant lastUsed == blocks[k - 1].used
        decreases |blocks| - k
      {
        StartInside(c, blocks, k);
        ReadHeader(c, ram[..], blocks, k);
        SaneBlock(c, ram[..], blocks, k);
        if mem % c.align != 0 || c.memSize < ram[mem].prev || c.memSize < ram[mem].next
          || ram[mem].prev % c.align != 0 || ram[mem].next % c.align != 0
          || (!lastUsed && !ram[mem].used)
          || !LinkValid(c, ram[..], mem)
        {
          return false;
        }
        lastUsed := ram[mem].used;
        mem := ram[mem].next;
        k := k + 1;
      }
      ok := mem == c.memSize && ram[mem] == Header(c.memSize, c.memSize, true);
    }
  }
}
