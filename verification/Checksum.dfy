/** The three versions of lwip_standard_chksum, on a host of either byte order. */
module Checksum {
  import opened OnesComplement
  import opened Prelude

  datatype Host = BigEndian | LittleEndian

  /** A 16-bit load of two octets from memory. */
  function Load16(host: Host, b0: byte, b1: byte): word {
    if host.BigEndian? then Pair(b0, b1) else Pair(b1, b0)
  }

  /** A 32-bit load of four octets from memory. */
  function Load32(host: Host, b0: byte, b1: byte, b2: byte, b3: byte): u32 {
    if host.BigEndian? then Pair(b0, b1) as int * 0x10000 + Pair(b2, b3) as int
    else Pair(b3, b2) as int * 0x10000 + Pair(b1, b0) as int
  }

  /** lwip_htons */
  function Htons(host: Host, w: word): word {
    if host.BigEndian? then w else SwapBytes(w)
  }

  /** A 32-bit addition as the processor does it. */
  function Add32(a: u32, b: u32): u32 { (a as int + b as int) % M32 }

  lemma AddMod(a: int, b: int)
    ensures (a % M32 + b) % M32 == (a + b) % M32
  {
  }

  /** One more word in the accumulator, while `pending` is still to be added. */
  lemma Accumulate(sum: u32, pending: word, w: word, total: nat)
    requires (sum as int + pending as int) % M32 == total % M32
    ensures (Add32(sum, w) as int + pending as int) % M32 == (total + w) % M32
    ensures (sum as int + pending as int + w as int) % M32 == (total + w) % M32
  {
    AddMod(sum as int + w as int, pending);
    AddMod(sum as int + pending as int, w);
    AddMod(total, w);
  }

  /** What the accumulating versions compute: they drop what overflows 32 bits. */
  function Truncated(host: Host, s: seq<byte>): word {
    Htons(host, Folded(Total(s, true) % M32))
  }

  function TruncatedAt(host: Host, s: seq<byte>, oddAddress: bool): word {
    if oddAddress then SwapBytes(Folded(Total(s, !host.BigEndian?) % M32))
    else Folded(Total(s, host.BigEndian?) % M32)
  }

  /** Algorithm 1: octet by octet, in network order. */
  method StandardChksum1(host: Host, data: seq<byte>) returns (r: word)
    ensures r == Truncated(host, data)
  {
    hide Folded, SwapBytes, Pair;
    var acc: u32 := 0;
    var i, len := 0, |data|;
    while 1 < len
      invariant 0 <= i && 0 <= len && i + len == |data| && i % 2 == 0
      invariant acc == Total(data[..i], true) % M32
    {
      var src := Pair(data[i], data[i + 1]);
      TotalPair(data, i, true);
      AddMod(Total(data[..i], true), src);
      acc := Add32(acc, src);
      i, len := i + 2, len - 2;
    }
    if 0 < len {
      TotalNext(data, i, true);
      AddMod(Total(data[..i], true), Pair(data[i], 0));
      acc := Add32(acc, Pair(data[i], 0));
      i := i + 1;
    }
    assert data[..i] == data;
    FoldOnceKeeps(acc);
    FoldTwice(acc);
    acc := FoldOnce(acc);
    if 0x10000 <= acc {
      acc := FoldOnce(acc);
    }
    r := Htons(host, acc);
  }

  lemma TotalNext(s: seq<byte>, i: nat, h: bool)
    requires i < |s|
    ensures Total(s[..i + 1], h) == Total(s[..i], h) + if (i % 2 == 0) == h then Pair(s[i], 0) else s[i] as int
  {
    TotalAppend(s[..i], s[i], h);
    assert s[..i] + [s[i]] == s[..i + 1];
  }

  lemma TotalPair(s: seq<byte>, i: nat, h: bool)
    requires i + 1 < |s|
    ensures Total(s[..i + 2], h) == Total(s[..i], h)
      + if (i % 2 == 0) == h then Pair(s[i], s[i + 1]) else Pair(s[i + 1], s[i])
  {
    TotalNext(s, i, h);
    TotalNext(s, i + 1, h);
  }

  /** The state of algorithm 2: `sum`, with `pending` still to be added, is the sum of the
      first i octets as far as 32 bits hold it. */
  ghost predicate Accumulated(host: Host, data: seq<byte>, i: int, h: bool, sum: u32, pending: word) {
    && 0 <= i <= |data|
    && (i < |data| ==> ((i % 2 == 0) == h) == host.BigEndian?)
    && (sum as int + pending as int) % M32 == Total(data[..i], h) % M32
  }

  lemma AccumulateStart(host: Host, data: seq<byte>, i: nat, odd: bool, t1: byte)
    requires if odd && 0 < |data| then i == 1 && t1 == data[0] else i == 0 && t1 == 0
    ensures Accumulated(host, data, i, host.BigEndian? != odd, 0, Load16(host, 0, t1))
  {
    if i == 1 { TotalNext(data, 0, host.BigEndian? != odd); }
  }

  lemma LoadIsPair(host: Host, b0: byte, b1: byte)
    ensures Load16(host, b0, b1) == if host.BigEndian? then Pair(b0, b1) else Pair(b1, b0)
  {
  }

  lemma AccumulateWord(host: Host, data: seq<byte>, i: nat, h: bool, sum: u32, pending: word)
    requires Accumulated(host, data, i, h, sum, pending) && i + 1 < |data|
    ensures Accumulated(host, data, i + 2, h, Add32(sum, Load16(host, data[i], data[i + 1])), pending)
  {
    hide Total, Add32, Pair;
    TotalPair(data, i, h);
    LoadIsPair(host, data[i], data[i + 1]);
    hide Load16;
    Accumulate(sum, pending, Load16(host, data[i], data[i + 1]), Total(data[..i], h));
  }

  lemma AccumulateEnd(host: Host, data: seq<byte>, i: nat, h: bool, sum: u32, t1: byte, t0: byte)
    requires Accumulated(host, data, i, h, sum, Load16(host, 0, t1))
    requires |data| <= i + 1 && t0 == if i < |data| then data[i] else 0
    ensures Add32(sum, Load16(host, t0, t1)) == Total(data, h) % M32
  {
    hide Total;
    if i < |data| {
      TotalNext(data, i, h);
      Accumulate(sum, Load16(host, 0, t1), Load16(host, t0, 0), Total(data[..i], h));
      assert data[..i + 1] == data;
    } else {
      assert data[..i] == data;
    }
  }

  /** Algorithm 2: 16-bit loads from even addresses; the octets that remain at either
      end are gathered in one more word. */
  method StandardChksum2(host: Host, data: seq<byte>, address: nat) returns (r: word)
    ensures r == TruncatedAt(host, data, address % 2 == 1)
  {
    hide Accumulated, Folded, Total, Load16, FoldOnce, SwapBytes;
    var odd := address % 2 == 1;
    ghost var h := host.BigEndian? != odd;   // the weight of the first octet
    var t0: byte, t1: byte := 0, 0;
    var sum: u32 := 0;
    var i, len := 0, |data|;
    if odd && 0 < len {
      t1 := data[0];
      i, len := 1, len - 1;
    }
    ghost var pending := Load16(host, 0, t1);
    AccumulateStart(host, data, i, odd, t1);
    while 1 < len
      invariant 0 <= i && 0 <= len && i + len == |data|
      invariant Accumulated(host, data, i, h, sum, pending)
    {
      AccumulateWord(host, data, i, h, sum, pending);
      sum := Add32(sum, Load16(host, data[i], data[i + 1]));
      i, len := i + 2, len - 2;
    }
    if 0 < len {
      t0 := data[i];
    }
    AccumulateEnd(host, data, i, h, sum, t1, t0);
    sum := Add32(sum, Load16(host, t0, t1));
    FoldTwice(sum);
    sum := FoldOnce(sum);
    sum := FoldOnce(sum);
    if odd {
      sum := SwapBytes(sum);
    }
    r := sum;
  }

  /** The state of algorithm 3: `sum`, with `pending` still to be added, stands for the
      first i octets; the words start at the places where the host has them. */
  ghost predicate Running(host: Host, data: seq<byte>, i: int, h: bool, sum: u32, pending: word) {
    && 0 <= i <= |data|
    && (i < |data| ==> ((i % 2 == 0) == h) == host.BigEndian?)
    && Folded(sum as int + pending as int) == Folded(Total(data[..i], h))
  }

  lemma RunWord(host: Host, data: seq<byte>, i: nat, h: bool, sum: u32, pending: word)
    requires Running(host, data, i, h, sum, pending) && i + 1 < |data| && sum <= 0xFFFF * 0x10000
    ensures Running(host, data, i + 2, h, sum as int + Load16(host, data[i], data[i + 1]) as int, pending)
  {
    TotalPair(data, i, h);
    FoldedAdd(sum as int + pending as int, Total(data[..i], h), Load16(host, data[i], data[i + 1]));
  }

  lemma RunFold(host: Host, data: seq<byte>, i: nat, h: bool, sum: u32, pending: word)
    requires Running(host, data, i, h, sum, pending)
    ensures Running(host, data, i, h, FoldOnce(sum), pending) && FoldOnce(sum) <= 0x1FFFE
  {
    FoldOnceKeeps(sum);
    FoldedAdd(sum, FoldOnce(sum), pending);
  }

  /** One 32-bit load with end-around carry. */
  lemma RunLong(host: Host, data: seq<byte>, i: nat, h: bool, sum: u32, pending: word, r: u32)
    requires Running(host, data, i, h, sum, pending) && i + 3 < |data|
    requires var x := Load32(host, data[i], data[i + 1], data[i + 2], data[i + 3]);
      r as int == if sum as int + x as int < M32 then sum as int + x as int else sum as int + x as int - 0xFFFF_FFFF
    ensures Running(host, data, i + 4, h, r, pending)
  {
    hide Total, Folded, Load32;
    var x := Load32(host, data[i], data[i + 1], data[i + 2], data[i + 3]);
    TotalPair(data, i, h);
    TotalPair(data, i + 2, h);
    EndAroundAdd(sum, x, r, pending);
    var k := LoadIsTwoWords(host, data[i], data[i + 1], data[i + 2], data[i + 3]);
    var words := Load16(host, data[i], data[i + 1]) as int + Load16(host, data[i + 2], data[i + 3]) as int;
    FoldedShift(words, k);
    FoldedAdd(words, x, sum as int + pending as int);
    FoldedAdd(sum as int + pending as int, Total(data[..i], h), words);
  }

  lemma LoadIsTwoWords(host: Host, b0: byte, b1: byte, b2: byte, b3: byte) returns (k: nat)
    ensures Load32(host, b0, b1, b2, b3) as int
         == Load16(host, b0, b1) as int + Load16(host, b2, b3) as int + 0xFFFF * k
    ensures Load16(host, b0, b1) as int + Load16(host, b2, b3) as int == 0 ==> k == 0
  {
    k := if host.BigEndian? then Pair(b0, b1) else Pair(b3, b2);
  }

  /** The end of algorithm 3: the last octet, if any, joins the pending one. */
  lemma RunEnd(host: Host, data: seq<byte>, i: nat, odd: bool, sum: u32, t1: byte, t0: byte)
    requires Running(host, data, i, host.BigEndian? != odd, sum, Load16(host, 0, t1))
    requires |data| <= i + 1 && t0 == (if i < |data| then data[i] else 0) && sum <= 0xFFFF * 0x10000
    ensures var v := Folded(sum as int + Load16(host, t0, t1) as int);
      (if odd then SwapBytes(v) else v) == Htons(host, InternetSum(data))
  {
    hide Folded, Total, InternetSum;
    var h := host.BigEndian? != odd;
    if i < |data| {
      TotalNext(data, i, h);
      assert Load16(host, 0, t1) + Load16(host, t0, 0) == Load16(host, t0, t1) && (data[..i + 1] == data);
      FoldedAdd(sum as int + Load16(host, 0, t1) as int, Total(data[..i], h), Load16(host, t0, 0));
    } else {
      assert data[..i] == data;
    }
    HostSum(host, data, odd);
  }

  /** The end of algorithm 3: fold, at most three words and an octet more, fold again. */
  method FinishChksum3(host: Host, data: seq<byte>, from: nat, odd: bool, acc: u32, t1: byte) returns (r: word)
    requires from <= |data| <= from + 7
    requires Running(host, data, from, host.BigEndian? != odd, acc, Load16(host, 0, t1))
    ensures r == Htons(host, InternetSum(data))
  {
    hide Running, Folded, Total, InternetSum, Load16, FoldOnce, SwapBytes;
    ghost var h, pending := host.BigEndian? != odd, Load16(host, 0, t1);
    var t0: byte := 0;
    var i, len := from, |data| - from;
    var sum: u32 := acc;
    RunFold(host, data, i, h, sum, pending);
    sum := FoldOnce(sum);
    while 1 < len
      invariant 0 <= i && 0 <= len <= 7 && i + len == |data| && sum <= 0x1FFFE + 0xFFFF * (7 - len)
      invariant Running(host, data, i, h, sum, pending)
    {
      RunWord(host, data, i, h, sum, pending);
      sum := Add32(sum, Load16(host, data[i], data[i + 1]));
      i, len := i + 2, len - 2;
    }
    if 0 < len {
      t0 := data[i];
    }
    RunEnd(host, data, i, odd, sum, t1, t0);
    sum := Add32(sum, Load16(host, t0, t1));
    FoldTwice(sum);
    sum := FoldOnce(sum);
    sum := FoldOnce(sum);
    if odd {
      sum := SwapBytes(sum);
    }
    r := sum;
  }

  /** Algorithm 3: 32-bit loads, two at a time, with the carry added back at once. */
  method StandardChksum3(host: Host, data: seq<byte>, address: nat) returns (r: word)
    ensures r == Htons(host, InternetSum(data))
  {
    hide Running, Folded, Total, InternetSum, Load16, Load32;
    var odd := address % 2 == 1;
    ghost var h := host.BigEndian? != odd;   // the weight of the first octet
    var t1: byte := 0;
    var sum: u32 := 0;
    var i, len := 0, |data|;
    if odd && 0 < len {
      t1 := data[0];
      i, len := 1, len - 1;
    }
    ghost var pending := Load16(host, 0, t1);
    RunStart(host, data, i, odd, t1);
    if (address + i) % 4 != 0 && 1 < len {
      RunWord(host, data, i, h, sum, pending);
      sum := Load16(host, data[i], data[i + 1]);
      i, len := i + 2, len - 2;
    }
    while 7 < len
      invariant 0 <= i && 0 <= len && i + len == |data|
      invariant Running(host, data, i, h, sum, pending)
    {
      var tmp := Add32(sum, Load32(host, data[i], data[i + 1], data[i + 2], data[i + 3]));
      if tmp < sum {
        tmp := tmp + 1;
      }
      RunLong(host, data, i, h, sum, pending, tmp);
      sum := Add32(tmp, Load32(host, data[i + 4], data[i + 5], data[i + 6], data[i + 7]));
      if sum < tmp {
        sum := sum + 1;
      }
      RunLong(host, data, i + 4, h, tmp, pending, sum);
      i, len := i + 8, len - 8;
    }
    r := FinishChksum3(host, data, i, odd, sum, t1);
  }

  lemma RunStart(host: Host, data: seq<byte>, i: nat, odd: bool, t1: byte)
    requires if odd && 0 < |data| then i == 1 && t1 == data[0] else i == 0 && t1 == 0
    ensures Running(host, data, i, host.BigEndian? != odd, 0, Load16(host, 0, t1))
  {
    if i == 1 { TotalNext(data, 0, host.BigEndian? != odd); }
  }

  lemma EndAroundAdd(sum: u32, x: u32, r: u32, pending: word)
    requires r as int == if sum as int + x as int < M32 then sum as int + x as int else sum as int + x as int - 0xFFFF_FFFF
    ensures Folded(r as int + pending as int) == Folded(sum as int + x as int + pending as int)
  {
    if M32 <= sum as int + x as int {
      assert sum as int + x as int + pending as int == r as int + pending as int + 0xFFFF * 0x10001;
      FoldedShift(r as int + pending as int, 0x10001);
    }
  }

  // ---------- What the algorithms agree on ----------

  /** In host order the sum is the sum of the words as the host loads them; from an odd
      address, the bytes exchanged. */
  lemma HostSum(host: Host, s: seq<byte>, oddAddress: bool)
    ensures Htons(host, InternetSum(s)) == Folded(Total(s, host.BigEndian?))
    ensures oddAddress ==> Htons(host, InternetSum(s)) == SwapBytes(Folded(Total(s, !host.BigEndian?)))
  {
    InternetSumIsFolded(s);
    ByteOrderIndependent(s, true);
    ByteOrderIndependent(s, !host.BigEndian?);
  }

  lemma NoOverflow(s: seq<byte>, h: bool)
    requires |s| <= 0x20002
    ensures Total(s, h) % M32 == Total(s, h)
  {
    TotalBound(s, h);
  }

  /** Up to 0x20002 octets nothing overflows: algorithms 1 and 2 return, as algorithm 3
      always does, the sum of RFC 1071, for either parity of the start address. */
  lemma ShortDataIsExact(host: Host, s: seq<byte>, oddAddress: bool)
    requires |s| <= 0x20002
    ensures Truncated(host, s) == Htons(host, InternetSum(s))
    ensures TruncatedAt(host, s, oddAddress) == Htons(host, InternetSum(s))
  {
    NoOverflow(s, true);
    NoOverflow(s, host.BigEndian?);
    NoOverflow(s, !host.BigEndian?);
    InternetSumIsFolded(s);
    HostSum(host, s, oddAddress);
  }

  lemma {:induction false} AllOnesTotal(n: nat, h: bool)
    ensures Total(seq(2 * n, _ => 0xFF), h) == 0xFFFF * n
  {
    var s: seq<byte> := seq(2 * n, _ => 0xFF);
    if n != 0 {
      AllOnesTotal(n - 1, h);
      assert s[1..][1..] == seq(2 * (n - 1), _ => 0xFF);
    }
  }

  lemma {:induction false} ZerosTotal(n: nat, h: bool)
    ensures Total(seq(n, _ => 0), h) == 0
  {
    var s: seq<byte> := seq(n, _ => 0);
    if n != 0 {
      ZerosTotal(n - 1, !h);
      assert s[1..] == seq(n - 1, _ => 0);
    }
  }

  /** n octets whose sum just passes 32 bits. */
  function Overflowing(n: nat): seq<byte>
    requires 0x20002 < n
  {
    seq(2 * 0x10001, _ => 0xFF) + [1] + seq(n - 0x20003, _ => 0)
  }

  lemma OverflowingTotal(n: nat, h: bool)
    requires 0x20002 < n
    ensures |Overflowing(n)| == n
    ensures Total(Overflowing(n), h) == 0xFFFF_FFFF + if h then 256 else 1
  {
    var ones: seq<byte>, zeros: seq<byte> := seq(2 * 0x10001, _ => 0xFF), seq(n - 0x20003, _ => 0);
    TotalConcat(ones + [1], zeros, h);
    TotalAppend(ones, 1, h);
    AllOnesTotal(0x10001, h);
    ZerosTotal(|zeros|, !h);
  }

  lemma OverflowingFolds(n: nat, h: bool)
    requires 0x20002 < n
    ensures var t := Total(Overflowing(n), h);
      Folded(t) == (if h then 256 else 1) && Folded(t % M32) == if h then 255 else 0
  {
    OverflowingTotal(n, h);
    FoldedShift(if h then 256 else 1, 0x10001);
  }

  /** The bound is sharp: for every greater length there is data on which algorithms 1
      and 2, for either parity of the start address, return something else. */
  lemma LongDataCanOverflow(host: Host, n: nat, oddAddress: bool)
    requires 0x20002 < n
    ensures exists s: seq<byte> ::
      (|s| == n
       && Truncated(host, s) != Htons(host, InternetSum(s))
       && TruncatedAt(host, s, oddAddress) != Htons(host, InternetSum(s)))
  {
    var s := Overflowing(n);
    OverflowingTotal(n, true);
    InternetSumIsFolded(s);
    HostSum(host, s, oddAddress);
    OverflowingFolds(n, true);
    OverflowingFolds(n, host.BigEndian?);
    OverflowingFolds(n, !host.BigEndian?);
    hide Overflowing, Total, Folded;
    assert Truncated(host, s) != Htons(host, InternetSum(s));
  }

  /** Every algorithm's sum is 0 for all-zero data only. */
  lemma SumZero(host: Host, s: seq<byte>)
    ensures Htons(host, InternetSum(s)) == 0 <==> forall i :: 0 <= i < |s| ==> s[i] == 0
  {
    HostSum(host, s, false);
    ZeroOnlyForZeros(s, host.BigEndian?);
  }
}
