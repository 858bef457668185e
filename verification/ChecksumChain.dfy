/** Checksums over chains of packet buffers, with and without a pseudo header. */
module ChecksumChain {
  import opened OnesComplement
  import opened Checksum
  import opened Prelude

  /** One buffer of a chain: its octets and where they start in memory. */
  datatype Segment = Segment(data: seq<byte>, address: nat)

  datatype Algorithm = Algorithm1 | Algorithm2 | Algorithm3

  ghost predicate Buffers(p: seq<Segment>) {
    forall i :: 0 <= i < |p| ==> |p[i].data| <= 0xFFFF
  }

  /** The octets of a chain, one after the other. */
  function Flat(p: seq<Segment>): seq<byte> {
    if p == [] then [] else Flat(p[..|p| - 1]) + p[|p| - 1].data
  }

  /** LWIP_CHKSUM, whichever algorithm the port selects. */
  method LwipChksum(alg: Algorithm, host: Host, data: seq<byte>, address: nat) returns (r: word)
    requires |data| <= 0xFFFF
    ensures r == Htons(host, InternetSum(data))
  {
    match alg {
      case Algorithm1 => r := StandardChksum1(host, data);
      case Algorithm2 => r := StandardChksum2(host, data, address);
      case Algorithm3 => r := StandardChksum3(host, data, address);
    }
    ShortDataIsExact(host, data, address % 2 == 1);
  }

  /** `~` on 16 bits */
  function Complement(w: word): word { 0xFFFF - w as int }

  /** inet_chksum */
  method InetChksum(alg: Algorithm, host: Host, data: seq<byte>, address: nat) returns (r: word)
    requires |data| <= 0xFFFF
    ensures r == Complement(Htons(host, InternetSum(data)))
  {
    var s := LwipChksum(alg, host, data, address);
    r := Complement(s);
  }

  // ---------- The swapping accumulator ----------

  /** The accumulator for the sum n, its bytes exchanged while an odd number of octets lies behind. */
  function Oriented(swapped: bool, n: nat): word {
    if swapped then Folded(256 * n) else Folded(n)
  }

  lemma SwapTwice(w: word)
    ensures SwapBytes(SwapBytes(w)) == w
  {
    hide SwapBytes, Pair;
    WordSplit(w);
    WordSplit(SwapBytes(w));
    PairSplit(w as int % 256, w as int / 256);
  }

  lemma OrientedSwap(swapped: bool, n: nat)
    ensures SwapBytes(Oriented(swapped, n)) == Oriented(!swapped, n)
  {
    SwapFolds(n);
    SwapTwice(Folded(n));
  }

  /** Adding the next segment's checksum to the accumulator adds the segment's octets at
      the place they have in the whole. */
  lemma OrientedAdd(host: Host, swapped: bool, n: nat, s: seq<byte>)
    ensures Folded(Oriented(swapped, n) as int + Htons(host, InternetSum(s)) as int)
         == Oriented(swapped, n + Total(s, host.BigEndian? != swapped))
  {
    hide Total, InternetSum, Htons, SwapBytes;
    var b := host.BigEndian?;
    HostSum(host, s, false);
    var m := if swapped then 256 * n else n;
    var t := Total(s, b);
    assert Folded(Folded(m) as int + Folded(t) as int) == Folded(m + t) by {
      FoldedIdempotent(m);
      FoldedIdempotent(t);
      FoldedAdd(Folded(m), m, Folded(t));
      FoldedAdd(Folded(t), t, m);
    }
    if swapped {
      ByteOrderIndependent(s, !b);
      SwapFolds(Total(s, !b));
      FoldedAdd(t, 256 * Total(s, !b), m);
    }
  }

  lemma FoldedIdempotent(n: nat)
    ensures Folded(Folded(n)) == Folded(n)
  {
  }

  /** One round of the loops below. */
  method AddSegment(host: Host, acc: word, swapped: bool, chksum: word, len: nat, ghost n: nat, ghost s: seq<byte>)
    returns (acc': word, swapped': bool)
    requires acc == Oriented(swapped, n) && chksum == Htons(host, InternetSum(s))
    ensures swapped' == (swapped != (len % 2 != 0))
    ensures acc' == Oriented(swapped', n + Total(s, host.BigEndian? != swapped))
  {
    hide Folded, Oriented, SwapBytes, Total, InternetSum, FoldOnce;
    OrientedAdd(host, swapped, n, s);
    var sum: u32 := acc as int + chksum as int;
    FoldOnceKeeps(sum);
    sum := FoldOnce(sum);
    swapped' := swapped;
    if len % 2 != 0 {
      swapped' := !swapped;
      OrientedSwap(swapped, n + Total(s, host.BigEndian? != swapped));
      sum := SwapBytes(sum);
    }
    acc' := sum;
  }

  lemma FlatNext(p: seq<Segment>, i: nat)
    requires i < |p|
    ensures Flat(p[..i + 1]) == Flat(p[..i]) + p[i].data
  {
    assert p[..i + 1][..i] == p[..i];
  }

  /** Summing the segments of a chain into an accumulator that starts at acc0. */
  method SumChain(alg: Algorithm, host: Host, p: seq<Segment>, acc0: word) returns (acc: word)
    requires Buffers(p)
    ensures acc == Folded(acc0 as int + Total(Flat(p), host.BigEndian?))
  {
    hide Folded, Total, InternetSum, SwapBytes, Flat;
    acc := acc0;
    var swapped := false;
    StartOriented(host, acc0, p);
    for i := 0 to |p|
      invariant swapped == (|Flat(p[..i])| % 2 != 0)
      invariant acc == Oriented(swapped, acc0 as int + Total(Flat(p[..i]), host.BigEndian?))
    {
      var chksum := LwipChksum(alg, host, p[i].data, p[i].address);
      FlatNext(p, i);
      TotalConcat(Flat(p[..i]), p[i].data, host.BigEndian?);
      acc, swapped := AddSegment(host, acc, swapped, chksum, |p[i].data|,
        acc0 as int + Total(Flat(p[..i]), host.BigEndian?), p[i].data);
    }
    assert p[..|p|] == p;
    if swapped {
      OrientedSwap(swapped, acc0 as int + Total(Flat(p), host.BigEndian?));
      acc := SwapBytes(acc);
    }
  }

  lemma StartOriented(host: Host, acc0: word, p: seq<Segment>)
    ensures Flat(p[..0]) == [] && Total([], host.BigEndian?) == 0
    ensures acc0 == Oriented(false, acc0)
  {
  }

  /** inet_chksum_pbuf: the checksum of a chain is the checksum of its octets laid out
      flat, however they are cut into segments. */
  method InetChksumPbuf(alg: Algorithm, host: Host, p: seq<Segment>) returns (r: word)
    requires Buffers(p)
    ensures r == Complement(Htons(host, InternetSum(Flat(p))))
  {
    var acc := SumChain(alg, host, p, 0);
    HostSum(host, Flat(p), false);
    r := Complement(acc);
  }

  // ---------- Pseudo headers ----------

  /** The octets of a 16-bit field in network order. */
  function Field(w: word): seq<byte> { [w as int / 256, w as int % 256] }

  /** The pseudo header in front of the payload: source, destination, protocol and length. */
  function PseudoHeader(src: seq<byte>, dst: seq<byte>, proto: byte, len: word): seq<byte> {
    src + dst + [0, proto] + Field(len)
  }

  /** An address as the C code holds it: 32-bit loads of its octets in memory order. */
  method SumAddress(host: Host, a: seq<byte>, acc0: u32) returns (acc: u32)
    requires |a| % 4 == 0 && |a| <= 16 && acc0 <= 8 * 0xFFFF
    ensures acc as int == acc0 as int + Total(a, host.BigEndian?)
  {
    hide Pair, Total, Load16, Load32;
    acc := acc0;
    var i := 0;
    TotalNil(a, host.BigEndian?);
    while i < |a|
      invariant 0 <= i <= |a| && i % 4 == 0
      invariant acc as int == acc0 as int + Total(a[..i], host.BigEndian?)
      invariant acc <= acc0 as int + i / 2 * 0xFFFF
    {
      var addr := Load32(host, a[i], a[i + 1], a[i + 2], a[i + 3]);
      TotalHalves(host, a, i);
      acc := Add32(acc, addr % 0x10000);
      acc := Add32(acc, addr / 0x10000 % 0x10000);
      i := i + 4;
    }
    assert a[..i] == a;
  }

  lemma TotalNil(a: seq<byte>, h: bool)
    ensures Total(a[..0], h) == 0
  {
  }

  lemma TotalHalves(host: Host, a: seq<byte>, i: nat)
    requires i % 2 == 0 && i + 3 < |a|
    ensures var x := Load32(host, a[i], a[i + 1], a[i + 2], a[i + 3]);
      && 0 <= x % 0x10000 < 0x10000 && 0 <= x / 0x10000 % 0x10000 < 0x10000
      && Total(a[..i + 4], host.BigEndian?) == Total(a[..i], host.BigEndian?) + x % 0x10000 + x / 0x10000 % 0x10000
  {
    LoadHalves(host, a[i], a[i + 1], a[i + 2], a[i + 3]);
    TotalPair(a, i, host.BigEndian?);
    TotalPair(a, i + 2, host.BigEndian?);
  }

  lemma LoadHalves(host: Host, b0: byte, b1: byte, b2: byte, b3: byte)
    ensures var x := Load32(host, b0, b1, b2, b3);
      x % 0x10000 + x / 0x10000 % 0x10000 == Load16(host, b0, b1) as int + Load16(host, b2, b3) as int
      && x / 0x10000 < 0x10000
  {
    hide Pair;
    if host.BigEndian? { LongSplit(Pair(b0, b1), Pair(b2, b3)); } else { LongSplit(Pair(b3, b2), Pair(b1, b0)); }
  }

  /** The end of inet_cksum_pseudo_base and inet_cksum_pseudo_partial_base. */
  method FinishPseudo(host: Host, acc: word, proto: byte, protoLen: word) returns (r: word)
    ensures r == Complement(Folded(acc as int + Total([0, proto] + Field(protoLen), host.BigEndian?)))
  {
    hide Folded, FoldOnce, Htons, Total, Field;
    var sum: u32 := acc;
    sum := Add32(sum, Htons(host, proto));
    sum := Add32(sum, Htons(host, protoLen));
    TailTotal(host, proto, protoLen);
    FoldTwice(sum);
    sum := FoldOnce(sum);
    sum := FoldOnce(sum);
    r := Complement(sum);
  }

  lemma TailTotal(host: Host, proto: byte, len: word)
    ensures Total([0, proto] + Field(len), host.BigEndian?) == Htons(host, proto) as int + Htons(host, len) as int
  {
    hide Total, SwapBytes, Pair;
    TotalConcat([0, proto], Field(len), host.BigEndian?);
    TwoTotal([0, proto], host.BigEndian?);
    TwoTotal(Field(len), host.BigEndian?);
    WordSplit(proto);
    WordSplit(len);
  }

  /** What inet_chksum_pseudo and ip6_chksum_pseudo hand to the common part. */
  method SumAddresses(host: Host, src: seq<byte>, dst: seq<byte>) returns (acc: word)
    requires |src| % 4 == 0 && |src| <= 16 && |dst| % 4 == 0 && |dst| <= 16
    ensures acc == Folded(Total(src, host.BigEndian?) + Total(dst, host.BigEndian?))
  {
    hide Folded, FoldOnce;
    var sum := SumAddress(host, src, 0);
    TotalBound(src, host.BigEndian?);
    sum := SumAddress(host, dst, sum);
    FoldTwice(sum);
    sum := FoldOnce(sum);
    sum := FoldOnce(sum);
    acc := sum;
  }

  /** The sums of the parts are the sum of pseudo header and payload in one piece. */
  lemma PseudoSum(host: Host, src: seq<byte>, dst: seq<byte>, proto: byte, len: word, data: seq<byte>, acc: word, acc': word)
    requires |src| % 2 == 0 && |dst| % 2 == 0
    requires acc == Folded(Total(src, host.BigEndian?) + Total(dst, host.BigEndian?))
    requires acc' == Folded(acc as int + Total(data, host.BigEndian?))
    ensures Folded(acc' as int + Total([0, proto] + Field(len), host.BigEndian?))
         == Htons(host, InternetSum(PseudoHeader(src, dst, proto, len) + data))
  {
    hide Folded, Total, InternetSum, PseudoHeader, Field, Htons;
    var h := host.BigEndian?;
    var tail := Total([0, proto] + Field(len), h);
    var header := PseudoHeader(src, dst, proto, len);
    HostSum(host, header + data, false);
    PseudoHeaderTotal(src, dst, proto, len, h);
    TotalConcat(header, data, h);
    var a := Total(src, h) + Total(dst, h);
    FoldedIdempotent(a);
    FoldedAdd(acc, a, Total(data, h));
    FoldedIdempotent(a + Total(data, h));
    FoldedAdd(acc', a + Total(data, h), tail);
  }

  lemma PseudoHeaderTotal(src: seq<byte>, dst: seq<byte>, proto: byte, len: word, h: bool)
    requires |src| % 2 == 0 && |dst| % 2 == 0
    ensures |PseudoHeader(src, dst, proto, len)| % 2 == 0
    ensures Total(PseudoHeader(src, dst, proto, len), h)
         == Total(src, h) + Total(dst, h) + Total([0, proto] + Field(len), h)
  {
    var tail: seq<byte> := [0, proto] + Field(len);
    assert PseudoHeader(src, dst, proto, len) == (src + dst) + tail;
    TotalConcat(src + dst, tail, h);
    TotalConcat(src, dst, h);
  }

  /** inet_chksum_pseudo (4-octet addresses) and ip6_chksum_pseudo (16-octet addresses). */
  method InetChksumPseudo(alg: Algorithm, host: Host, p: seq<Segment>, proto: byte, protoLen: word,
                          src: seq<byte>, dst: seq<byte>) returns (r: word)
    requires Buffers(p) && |src| == |dst| && (|src| == 4 || |src| == 16)
    ensures r == Complement(Htons(host, InternetSum(PseudoHeader(src, dst, proto, protoLen) + Flat(p))))
  {
    hide Folded, Total, InternetSum, Flat, Field, PseudoHeader;
    var acc0 := SumAddresses(host, src, dst);
    var acc := SumChain(alg, host, p, acc0);
    PseudoSum(host, src, dst, proto, protoLen, Flat(p), acc0, acc);
    r := FinishPseudo(host, acc, proto, protoLen);
  }

  /** The loop of inet_cksum_pseudo_partial_base: it decides about swapping by the whole
      length of each buffer, even where only a part of it is summed. */
  method SumChainPartial(alg: Algorithm, host: Host, p: seq<Segment>, chksumLen: word, acc0: word) returns (acc: word)
    requires Buffers(p)
    ensures acc == Folded(acc0 as int + Total(Flat(p)[..Min(chksumLen, |Flat(p)|)], host.BigEndian?))
  {
    hide Folded, Total, InternetSum, SwapBytes, Flat;
    acc := acc0;
    var swapped, left, i := false, chksumLen as int, 0;
    ghost var taken: seq<byte> := [];
    StartOriented(host, acc0, p);
    while i < |p| && 0 < left
      invariant 0 <= i <= |p| && 0 <= left && |taken| + left == chksumLen as int
      invariant taken <= Flat(p[..i])
      invariant 0 < left ==> taken == Flat(p[..i]) && swapped == (|taken| % 2 != 0)
      invariant acc == Oriented(swapped, acc0 as int + Total(taken, host.BigEndian?))
    {
      var q := p[i];
      var chklen := |q.data|;
      if left < chklen {
        chklen := left;
      }
      var chksum := LwipChksum(alg, host, q.data[..chklen], q.address);
      left := left - chklen;
      FlatNext(p, i);
      TotalConcat(taken, q.data[..chklen], host.BigEndian?);
      acc, swapped := AddSegment(host, acc, swapped, chksum, |q.data|,
        acc0 as int + Total(taken, host.BigEndian?), q.data[..chklen]);
      taken := taken + q.data[..chklen];
      i := i + 1;
    }
    FlatPrefix(p, i);
    assert p[..|p|] == p;
    assert taken == Flat(p)[..Min(chksumLen, |Flat(p)|)];
    if swapped {
      OrientedSwap(swapped, acc0 as int + Total(taken, host.BigEndian?));
      acc := SwapBytes(acc);
    }
    NotSwapped(acc0 as int + Total(taken, host.BigEndian?));
  }

  lemma NotSwapped(n: nat)
    ensures Oriented(false, n) == Folded(n)
  {
  }

  lemma {:induction false} FlatPrefix(p: seq<Segment>, i: nat)
    requires i <= |p|
    ensures Flat(p[..i]) <= Flat(p)
    decreases |p| - i
  {
    if i == |p| {
      assert p[..i] == p;
    } else {
      FlatNext(p, i);
      FlatPrefix(p, i + 1);
    }
  }

  /** inet_chksum_pseudo_partial and ip6_chksum_pseudo_partial: the checksum over the pseudo
      header and exactly the first chksumLen octets of the chain. */
  method InetChksumPseudoPartial(alg: Algorithm, host: Host, p: seq<Segment>, proto: byte, protoLen: word,
                                 chksumLen: word, src: seq<byte>, dst: seq<byte>) returns (r: word)
    requires Buffers(p) && |src| == |dst| && (|src| == 4 || |src| == 16)
    ensures r == Complement(Htons(host, InternetSum(
                   PseudoHeader(src, dst, proto, protoLen) + Flat(p)[..Min(chksumLen, |Flat(p)|)])))
  {
    hide Folded, Total, InternetSum, Flat, Field, PseudoHeader;
    var acc0 := SumAddresses(host, src, dst);
    var acc := SumChainPartial(alg, host, p, chksumLen, acc0);
    PseudoSum(host, src, dst, proto, protoLen, Flat(p)[..Min(chksumLen, |Flat(p)|)], acc0, acc);
    r := FinishPseudo(host, acc, proto, protoLen);
  }

  // ---------- Verification by the receiver ----------

  /** A 16-bit value as the host stores it in memory. */
  function Stored(host: Host, w: word): seq<byte> {
    if host.BigEndian? then Field(w) else [w as int % 256, w as int / 256]
  }

  /** Data with a 16-bit field at offset k. */
  function WithField(s: seq<byte>, k: nat, f: seq<byte>): seq<byte>
    requires k + 2 <= |s|
  {
    s[..k] + f + s[k + 2..]
  }

  lemma FieldTotal(host: Host, s: seq<byte>, k: nat, w: word)
    requires k % 2 == 0 && k + 2 <= |s|
    ensures Total(WithField(s, k, Stored(host, w)), host.BigEndian?)
         == Total(WithField(s, k, [0, 0]), host.BigEndian?) + w as int
  {
    var h := host.BigEndian?;
    PlacedTotal(s, k, Stored(host, w), h);
    PlacedTotal(s, k, [0, 0], h);
    TwoTotal(Stored(host, w), h);
    TwoTotal([0, 0], h);
  }

  lemma TwoTotal(f: seq<byte>, h: bool)
    requires |f| == 2
    ensures Total(f, h) == if h then Pair(f[0], f[1]) else Pair(f[1], f[0])
  {
    TotalNil(f, h);
    TotalPair(f, 0, h);
    hide Total, Pair;
    assert f[..2] == f;
  }

  lemma PlacedTotal(s: seq<byte>, k: nat, f: seq<byte>, h: bool)
    requires k % 2 == 0 && k + 2 <= |s| && |f| == 2
    ensures Total(WithField(s, k, f), h) == Total(s[..k], h) + Total(f, h) + Total(s[k + 2..], h)
  {
    TotalConcat(s[..k] + f, s[k + 2..], h);
    TotalConcat(s[..k], f, h);
  }

  /** Storing the checksum in the field that was zero while it was computed makes the
      checksum of the whole 0 (section 1 of RFC 1071). */
  lemma RecheckIsZero(host: Host, s: seq<byte>, k: nat)
    requires k % 2 == 0 && k + 2 <= |s|
    ensures var r := Complement(Htons(host, InternetSum(WithField(s, k, [0, 0]))));
      Complement(Htons(host, InternetSum(WithField(s, k, Stored(host, r))))) == 0
  {
    hide Total, WithField, InternetSum, Stored;
    var zeroed := WithField(s, k, [0, 0]);
    var n := Total(zeroed, host.BigEndian?);
    HostSum(host, zeroed, false);
    var r := Complement(Folded(n));
    FieldTotal(host, s, k, r);
    HostSum(host, WithField(s, k, Stored(host, r)), false);
    var m := FoldedSplit(n);
    FoldedShift(0xFFFF, m);
  }
}
