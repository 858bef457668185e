/** Ones' complement arithmetic on 16-bit words: the sum of section 1 of RFC 1071
    and the algebra behind the shortcuts of its section 2. */
module OnesComplement {
  import opened Prelude

  /** Ones' complement addition: the carry out of bit 15 goes back in at bit 0. */
  function OnesAdd(a: word, b: word): word {
    if a + b < 0x10000 then a + b else a + b - 0xFFFF
  }

  /** Two octets as a number, the first one most significant. */
  function Pair(high: byte, low: byte): word {
    high as int * 256 + low as int
  }

  /** The sum of section 1 of RFC 1071: adjacent octets form 16-bit words, the first
      octet most significant, an odd last octet is padded with zero. */
  function InternetSum(s: seq<byte>): word {
    if s == [] then 0
    else if |s| == 1 then Pair(s[0], 0)
    else OnesAdd(Pair(s[0], s[1]), InternetSum(s[2..]))
  }

  /** The integer sum of the octets, weighted 256 and 1 in turn. */
  function Total(s: seq<byte>, highFirst: bool): nat {
    if s == [] then 0 else (if highFirst then Pair(s[0], 0) else s[0] as int) + Total(s[1..], !highFirst)
  }

  /** The 16-bit value n folds to: 0 for 0 only, otherwise the representative of n
      modulo 0xFFFF among 1..0xFFFF. */
  function Folded(n: nat): word {
    if n == 0 then 0 else (n - 1) % 0xFFFF + 1
  }

  function SwapBytes(w: word): word {
    w % 256 * 256 + w / 256
  }

  lemma PairSplit(high: byte, low: byte)
    ensures Pair(high, low) as int / 256 == high && Pair(high, low) as int % 256 == low
  {
  }

  lemma WordSplit(w: word)
    ensures w == Pair(w as int / 256, w as int % 256)
    ensures SwapBytes(w) == Pair(w as int % 256, w as int / 256)
  {
  }

  lemma LongSplit(high: word, low: word)
    ensures var x := high as int * 0x10000 + low as int; x / 0x10000 == high && x % 0x10000 == low
  {
  }

  // ---------- Folding ----------

  lemma FoldedShift(n: nat, k: nat)
    requires 0 < n || k == 0
    ensures Folded(n + 0xFFFF * k) == Folded(n)
  {
  }

  lemma FoldedSplit(n: nat) returns (k: nat)
    ensures n == Folded(n) + 0xFFFF * k
  {
    k := if n == 0 then 0 else (n - 1) / 0xFFFF;
  }

  /** Adding to numbers that fold alike keeps them alike. */
  lemma FoldedAdd(a: nat, a': nat, b: nat)
    requires Folded(a) == Folded(a')
    ensures Folded(a + b) == Folded(a' + b)
  {
    if a != 0 {
      var k := FoldedSplit(a);
      var k' := FoldedSplit(a');
      FoldedShift(Folded(a) + b, k);
      FoldedShift(Folded(a) + b, k');
    }
  }

  lemma OnesAddFolds(a: word, b: nat)
    ensures OnesAdd(a, Folded(b)) == Folded(a + b)
  {
    var k := FoldedSplit(b);
    FoldedShift(a + Folded(b), k);
  }

  lemma TimesFolded(n: nat, w: word, k: nat)
    requires n == w + 0xFFFF * k
    ensures 256 * n == 256 * w as int + 0xFFFF * (256 * k)
  {
  }

  lemma SwapIs(w: word)
    ensures 256 * w as int == SwapBytes(w) as int + 0xFFFF * (w as int / 256)
    ensures SwapBytes(w) == 0 <==> w == 0
    ensures Folded(SwapBytes(w)) == SwapBytes(w)
  {
  }

  /** Swapping the bytes of a folded value is multiplying by 256. */
  lemma SwapFolds(n: nat)
    ensures SwapBytes(Folded(n)) == Folded(256 * n)
  {
    var w := Folded(n);
    var k := FoldedSplit(n);
    assert w == 0 ==> k == 0;
    hide Folded, SwapBytes;
    SwapIs(w);
    TimesFolded(n, w, k);
    FoldedShift(SwapBytes(w), w as int / 256);
    FoldedShift(256 * w as int, 256 * k);
  }

  // ---------- Weighted sums ----------

  lemma {:induction false} TotalConcat(a: seq<byte>, b: seq<byte>, h: bool)
    ensures Total(a + b, h) == Total(a, h) + Total(b, if |a| % 2 == 0 then h else !h)
  {
    if a == [] {
      assert a + b == b;
    } else {
      TotalConcat(a[1..], b, !h);
      assert (a + b)[1..] == a[1..] + b;
    }
  }

  lemma TotalAppend(a: seq<byte>, x: byte, h: bool)
    ensures Total(a + [x], h) == Total(a, h) + if (|a| % 2 == 0) == h then Pair(x, 0) else x as int
  {
    TotalConcat(a, [x], h);
    assert [x][1..] == [];
  }

  /** The sums of the octets at even and at odd places. */
  lemma {:induction false} EvenOddSums(s: seq<byte>) returns (even: nat, odd: nat)
    ensures Total(s, true) == 256 * even + odd
    ensures Total(s, false) == even + 256 * odd
  {
    if s == [] {
      even, odd := 0, 0;
    } else {
      var e, o := EvenOddSums(s[1..]);
      even, odd := s[0] as int + o, e;
    }
  }

  /** Byte order independence, section 2(B) of RFC 1071: summing with the octets of every
      word exchanged gives the sum with its octets exchanged. */
  lemma ByteOrderIndependent(s: seq<byte>, h: bool)
    ensures Folded(Total(s, !h)) == SwapBytes(Folded(Total(s, h)))
  {
    var e, o := EvenOddSums(s);
    SwapFolds(Total(s, h));
    var k := if h then e else o;
    assert 256 * Total(s, h) == Total(s, !h) + 0xFFFF * k;
    FoldedShift(Total(s, !h), k);
  }

  /** Deferred carries: the sum of section 1 is the weighted integer sum, folded once at the end. */
  lemma {:induction false} InternetSumIsFolded(s: seq<byte>)
    ensures InternetSum(s) == Folded(Total(s, true))
  {
    if |s| >= 2 {
      InternetSumIsFolded(s[2..]);
      assert s[1..][1..] == s[2..];
      OnesAddFolds(Pair(s[0], s[1]), Total(s[2..], true));
    } else if |s| == 1 {
      assert s[1..] == [];
    }
  }

  /** The sum is 0 for all-zero data only. */
  lemma {:induction false} ZeroOnlyForZeros(s: seq<byte>, h: bool)
    ensures Folded(Total(s, h)) == 0 <==> forall i :: 0 <= i < |s| ==> s[i] == 0
  {
    if s != [] {
      ZeroOnlyForZeros(s[1..], !h);
      assert forall i :: 0 < i < |s| ==> s[i] == s[1..][i - 1];
    }
  }

  /** A bound on the sum of n octets: 0xFFFF for each full word, and an odd last octet. */
  lemma {:induction false} TotalBound(s: seq<byte>, h: bool)
    ensures Total(s, h) <= 0xFFFF * (|s| / 2) + if |s| % 2 == 0 then 0 else if h then 0xFF00 else 0xFF
  {
    if |s| >= 2 {
      TotalBound(s[2..], h);
      assert s[1..][1..] == s[2..];
    } else if |s| == 1 {
      assert s[1..] == [];
    }
  }

  // ---------- The 32-bit accumulator ----------

  const M32 := 0x1_0000_0000

  type u32 = x: int | 0 <= x < M32

  /** FOLD_U32T */
  function FoldOnce(u: u32): u32 { u / 0x10000 + u % 0x10000 }

  lemma FoldOnceKeeps(u: u32)
    ensures Folded(FoldOnce(u)) == Folded(u) && FoldOnce(u) <= 0x1FFFE
    ensures u <= 0x1FFFE ==> FoldOnce(u) == Folded(u)
  {
    assert u == FoldOnce(u) + 0xFFFF * (u / 0x10000);
    FoldedShift(FoldOnce(u), u / 0x10000);
  }

  lemma FoldTwice(u: u32)
    ensures FoldOnce(FoldOnce(u)) == Folded(u)
  {
    FoldOnceKeeps(u);
    FoldOnceKeeps(FoldOnce(u));
  }
}
