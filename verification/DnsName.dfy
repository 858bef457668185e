/** Host names in DNS packets: the encoder, and the two decoders that walk over a name in a
    received packet of any segmentation. */
module DnsName {
  import opened PbufChain
  import opened PbufMemory
  import opened Prelude

  const DOT: byte := 46
  const HDR := 12
  const ROOT: seq<byte> := [0]

  /** The length of the first label of a name. */
  function FirstLabel(s: seq<byte>): (n: nat)
    ensures n <= |s|
  {
    if s == [] || s[0] == DOT then 0 else 1 + FirstLabel(s[1..])
  }

  /** It ends at the first dot, or with the name. */
  lemma {:induction false} FirstLabelEnds(s: seq<byte>)
    ensures var n := FirstLabel(s);
      (forall k :: 0 <= k < n ==> s[k] != DOT) && (n < |s| ==> s[n] == DOT)
  {
    if s != [] && s[0] != DOT {
      FirstLabelEnds(s[1..]);
      forall k | 0 <= k < FirstLabel(s) ensures s[k] != DOT { if k != 0 { assert s[k] == s[1..][k - 1]; } }
    }
  }

  function Octet(n: nat): byte { n % 256 }

  lemma OctetIs(n: nat)
    requires n < 256
    ensures Octet(n) == n
  {
  }

  function Labelled(n: byte, text: seq<byte>, rest: seq<byte>): (r: seq<byte>)
    ensures |r| == 1 + |text| + |rest|
  {
    [n] + text + rest
  }

  /** A name as section 3.1 of RFC 1035 writes it: every label behind its length, then a zero. */
  function Encoded(s: seq<byte>): seq<byte>
    decreases |s|
  {
    var n := FirstLabel(s);
    if n == |s| then Labelled(Octet(n), s, ROOT) else Labelled(Octet(n), s[..n], Encoded(s[n + 1..]))
  }

  /** An encoding is two bytes longer than the name. */
  lemma {:induction false} EncodedLength(s: seq<byte>)
    ensures |Encoded(s)| == |s| + 2
    decreases |s|
  {
    hide FirstLabel;
    var n := FirstLabel(s);
    LabelInside(s);
    if n < |s| { EncodedLength(s[n + 1..]); }
  }

  lemma LabelInside(s: seq<byte>)
    ensures FirstLabel(s) <= |s|
  {
  }

  /** Every label has 1 to 63 bytes. */
  predicate IsHostName(s: seq<byte>) {
    var n := FirstLabel(s);
    1 <= n <= 63 && (n < |s| ==> IsHostName(s[n + 1..]))
  }

  // ---------- Walking over a name ----------

  /** The bytes of the label at offset off, in other letter case, are those of the query from qi on. */
  predicate SameLabel(query: nat -> byte, qi: nat, flat: seq<byte>, off: nat, n: nat)
    requires off + n <= |flat|
  {
    forall j :: off <= j < off + n ==> Lower(query(qi + (j - off))) == Lower(flat[j])
  }

  /** The offset of the next length octet, if the label at off is that of the query, whose text is in
      memory from qi on. (Length octets from 192 on are compression pointers: section 4.1.4 of RFC 1035.) */
  function NextLabel(query: nat -> byte, qi: nat, flat: seq<byte>, off: nat): (r: Option<nat>)
    ensures r.Some? ==> off < r.value < |flat| && r.value == off + 1 + flat[off]
  {
    if off >= |flat| || flat[off] >= 192 || off + 1 + flat[off] >= |flat| then None
    else if !SameLabel(query, qi, flat, off + 1, flat[off]) then None
    else Some(off + 1 + flat[off])
  }

  /** The offset behind the name at off if it is accepted for the query. */
  function Matched(query: nat -> byte, qi: nat, flat: seq<byte>, off: nat): Option<nat>
    decreases |flat| - off
  {
    var next := NextLabel(query, qi, flat, off);
    if next.None? then None
    else if flat[next.value] == 0 then Some(next.value + 1)
    else Matched(query, qi + (next.value - off), flat, next.value)
  }

  /** The offset behind the name at off. */
  function Skipped(flat: seq<byte>, off: nat): Option<nat>
    decreases |flat| - off
  {
    if off >= |flat| then None
    else if flat[off] >= 192 then Some(off + 2)
    else
      var next := off + 1 + flat[off];
      if next >= |flat| then None
      else if flat[next] == 0 then Some(next + 1)
      else Skipped(flat, next)
  }

  /** As an unsigned 16-bit result; 0xFFFF means failure. */
  function Offset(r: Option<nat>): nat { if r.Some? && r.value < M16 then r.value else 0xFFFF }

  /** The inner loop of dns_compare_name: compare one label of n bytes. */
  method CompareLabel(s: Memory, query: nat -> byte, qi: nat, p: Option<nat>, start: nat, n: nat, ghost c: seq<nat>)
    returns (same: bool)
    requires Sized(s.mem, p, c) && start <= |Flat(s.mem, c)|
    ensures same <==> start + n <= |Flat(s.mem, c)| && SameLabel(query, qi, Flat(s.mem, c), start, n)
  {
    ghost var flat := Flat(s.mem, c);
    assert |flat| < M16;
    hide Sized, Flat;
    for k := 0 to n
      invariant start + k <= |flat|
      invariant forall j :: start <= j < start + k ==> Lower(query(qi + (j - start))) == Lower(flat[j])
    {
      var b := s.TryGetAt(p, start + k, c);
      if b < 0 {
        return false;
      }
      if Lower(query(qi + k)) != Lower(b) {
        assert flat[start + k] == b;
        return false;
      }
      if start + k == 0xFFFF {
        return false;
      }
    }
    same := true;
  }

  /** One round of dns_compare_name: a length octet and its label. */
  method CompareOne(s: Memory, query: nat -> byte, qi: nat, p: Option<nat>, start: nat, ghost c: seq<nat>)
    returns (next: Option<nat>, n: int)
    requires Sized(s.mem, p, c) && start < M16
    ensures next == NextLabel(query, qi, Flat(s.mem, c), start)
    ensures next.Some? ==> n == Flat(s.mem, c)[next.value]
  {
    ghost var flat := Flat(s.mem, c);
    assert |flat| < M16;
    hide Sized, Flat, SameLabel;
    var off := start;
    next := None;
    n := s.TryGetAt(p, off, c);
    if n < 0 || off == 0xFFFF {
      return;
    }
    off := off + 1;
    if n >= 192 {
      return;
    }
    var same := CompareLabel(s, query, qi, p, off, n, c);
    if !same {
      return;
    }
    off := off + n;
    n := s.TryGetAt(p, off, c);
    if n < 0 {
      return;
    }
    next := Some(off);
  }

  /** dns_compare_name */
  method CompareName(s: Memory, query: nat -> byte, p: Option<nat>, start: nat, ghost c: seq<nat>) returns (r: nat)
    requires Sized(s.mem, p, c) && start < M16
    ensures r == Offset(Matched(query, 0, Flat(s.mem, c), start))
  {
    ghost var flat := Flat(s.mem, c);
    assert |flat| < M16;
    hide Sized, Flat;
    var off: nat, qi: nat := start, 0;
    r := 0xFFFF;
    while true
      invariant off < M16 && r == 0xFFFF && Matched(query, 0, flat, start) == Matched(query, qi, flat, off)
      decreases |flat| - off
    {
      var next, n := CompareOne(s, query, qi, p, off, c);
      if next.None? {
        return;
      }
      off, qi := next.value, qi + (next.value - off);
      if n == 0 {
        break;
      }
    }
    if off == 0xFFFF {
      return;
    }
    r := off + 1;
  }

  /** dns_skip_name */
  method SkipName(s: Memory, p: Option<nat>, start: nat, ghost c: seq<nat>) returns (r: nat)
    requires Sized(s.mem, p, c) && start < M16 && p.Some?
    ensures r == Offset(Skipped(Flat(s.mem, c), start))
  {
    ghost var flat := Flat(s.mem, c);
    HeadTotal(s.mem, p, c);
    hide Sized, Flat;
    var off, n := start, 0;
    r := 0xFFFF;
    while true
      invariant off < M16 && r == 0xFFFF && Skipped(flat, start) == Skipped(flat, off)
      decreases |flat| - off
    {
      n := s.TryGetAt(p, off, c);
      off := (off + 1) % M16;
      if n < 0 || off == 0 {
        return;
      }
      if n >= 192 {
        // only skipped, not checked
        break;
      }
      if off + n >= s.mem[p.value].totLen {
        return;
      }
      off := off + n;
      n := s.TryGetAt(p, off, c);
      if n < 0 {
        return;
      }
      if n == 0 {
        break;
      }
    }
    if off == 0xFFFF {
      return;
    }
    r := (off + 1) % M16;
  }

  // ---------- Round trip ----------

  /** The query in memory is s, in other letter case, and anything behind it. */
  ghost predicate Reads(query: nat -> byte, qi: nat, s: seq<byte>) {
    forall k :: 0 <= k < |s| ==> Lower(query(qi + k)) == Lower(s[k])
  }

  /** The bytes of the packet at off are those of e, in other letter case. */
  ghost predicate Holds(flat: seq<byte>, off: nat, e: seq<byte>) {
    off + |e| <= |flat| && forall k :: 0 <= k < |e| ==> Lower(flat[off + k]) == Lower(e[k])
  }

  /** The query in memory agrees with s at position k, unless s has a separator there. */
  predicate AgreesAt(query: nat -> byte, qi: nat, s: seq<byte>, k: nat)
    requires k < |s|
  {
    s[k] == DOT || Lower(query(qi + k)) == Lower(s[k])
  }

  ghost predicate LabelsAgree(query: nat -> byte, qi: nat, s: seq<byte>) {
    forall k :: 0 <= k < |s| ==> AgreesAt(query, qi, s, k)
  }

  /** Which queries the name s in a packet is accepted for: those that agree with its labels. Neither what stands
      between the labels nor where the query ends is looked at. */
  lemma {:induction false} AcceptedIffLabelsAgree(s: seq<byte>, query: nat -> byte, qi: nat, flat: seq<byte>, off: nat)
    requires IsHostName(s) && Holds(flat, off, Encoded(s))
    ensures Matched(query, qi, flat, off).Some? <==> LabelsAgree(query, qi, s)
    ensures Matched(query, qi, flat, off).Some? ==> Matched(query, qi, flat, off) == Some(off + |s| + 2)
    decreases |s|
  {
    hide Encoded, Holds, SameLabel, FirstLabel, IsHostName, LabelsAgree;
    HostNameParts(s);
    var n := FirstLabel(s);
    EncodedParts(s, flat, off);
    FirstLabelAgrees(s, query, qi, flat, off);
    if n < |s| { AcceptedIffLabelsAgree(s[n + 1..], query, qi + n + 1, flat, off + n + 1); }
  }

  lemma FirstLabelAgrees(s: seq<byte>, query: nat -> byte, qi: nat, flat: seq<byte>, off: nat)
    requires FirstLabel(s) <= |s| && Holds(flat, off + 1, s[..FirstLabel(s)])
    ensures var n := FirstLabel(s);
      LabelsAgree(query, qi, s) <==>
        SameLabel(query, qi, flat, off + 1, n) && (n < |s| ==> LabelsAgree(query, qi + n + 1, s[n + 1..]))
  {
    var n := FirstLabel(s);
    FirstLabelEnds(s);
    hide FirstLabel, LabelsAgree, SameLabel, Holds;
    LabelAgrees(s[..n], query, qi, flat, off);
    if n < |s| { AgreementSplits(s, query, qi, n); } else { assert s[..n] == s; }
  }

  lemma LabelAgrees(text: seq<byte>, query: nat -> byte, qi: nat, flat: seq<byte>, off: nat)
    requires DOT !in text && Holds(flat, off + 1, text)
    ensures LabelsAgree(query, qi, text) <==> SameLabel(query, qi, flat, off + 1, |text|)
  {
    hide Lower;
    if LabelsAgree(query, qi, text) {
      forall j | off + 1 <= j < off + 1 + |text| ensures Lower(query(qi + (j - (off + 1)))) == Lower(flat[j]) {
        assert AgreesAt(query, qi, text, j - (off + 1)) && Lower(flat[off + 1 + (j - (off + 1))]) == Lower(text[j - (off + 1)]);
      }
    }
    if SameLabel(query, qi, flat, off + 1, |text|) {
      forall k | 0 <= k < |text| ensures AgreesAt(query, qi, text, k) {
        var j := off + 1 + k;
        assert Lower(query(qi + (j - (off + 1)))) == Lower(flat[j]) && j - (off + 1) == k;
        assert Lower(flat[off + 1 + k]) == Lower(text[k]);
      }
    }
  }

  lemma AgreementSplits(s: seq<byte>, query: nat -> byte, qi: nat, n: nat)
    requires n < |s| && s[n] == DOT
    ensures LabelsAgree(query, qi, s) <==> LabelsAgree(query, qi, s[..n]) && LabelsAgree(query, qi + n + 1, s[n + 1..])
  {
    hide Lower;
    var rest, q := s[n + 1..], qi + n + 1;
    if LabelsAgree(query, qi, s) {
      forall k | 0 <= k < n ensures AgreesAt(query, qi, s[..n], k) { assert AgreesAt(query, qi, s, k); }
      forall k | 0 <= k < |rest| ensures AgreesAt(query, q, rest, k) {
        assert AgreesAt(query, qi, s, n + 1 + k) && qi + (n + 1 + k) == q + k;
      }
    }
    if LabelsAgree(query, qi, s[..n]) && LabelsAgree(query, q, rest) {
      forall k | 0 <= k < |s| ensures AgreesAt(query, qi, s, k) {
        if k < n { assert AgreesAt(query, qi, s[..n], k); }
        if n < k { assert AgreesAt(query, q, rest, k - n - 1) && q + (k - n - 1) == qi + k; }
      }
    }
  }

  /** The encoding of a host name is accepted, in any letter case, up to just behind it. */
  lemma EncodedIsMatched(s: seq<byte>, query: nat -> byte, qi: nat, flat: seq<byte>, off: nat)
    requires IsHostName(s) && Reads(query, qi, s) && Holds(flat, off, Encoded(s))
    ensures Matched(query, qi, flat, off) == Some(off + |s| + 2)
  {
    forall k | 0 <= k < |s| ensures AgreesAt(query, qi, s, k) { assert Lower(query(qi + k)) == Lower(s[k]); }
    hide Encoded, Holds, IsHostName, Matched;
    AcceptedIffLabelsAgree(s, query, qi, flat, off);
  }

  lemma ReadsRest(query: nat -> byte, qi: nat, s: seq<byte>, n: nat)
    requires n <= |s| && Reads(query, qi, s)
    ensures Reads(query, qi + n, s[n..])
  {
    forall k | 0 <= k < |s| - n ensures Lower(query(qi + n + k)) == Lower(s[n..][k]) {
      assert s[n..][k] == s[n + k];
    }
  }

  /** The parts of an encoding. */
  lemma EncodedAt(s: seq<byte>)
    requires FirstLabel(s) < 256
    ensures var n := FirstLabel(s);
      && Encoded(s)[0] == n && Encoded(s)[1..n + 1] == s[..n]
      && Encoded(s)[n + 1..] == if n == |s| then ROOT else Encoded(s[n + 1..])
  {
    hide *;
    LabelInside(s);
    var n := FirstLabel(s);
    var tail := EncodedTail(s);
    OctetIs(n);
    Parts(Encoded(s), n, s[..n], tail);
  }

  lemma EncodedTail(s: seq<byte>) returns (tail: seq<byte>)
    ensures FirstLabel(s) <= |s| && Encoded(s) == Labelled(Octet(FirstLabel(s)), s[..FirstLabel(s)], tail)
    ensures tail == if FirstLabel(s) == |s| then ROOT else Encoded(s[FirstLabel(s) + 1..])
  {
    hide FirstLabel, Labelled, Octet;
    LabelInside(s);
    assert s[..|s|] == s;
    tail := if FirstLabel(s) == |s| then ROOT else Encoded(s[FirstLabel(s) + 1..]);
  }

  lemma Parts(e: seq<byte>, n: nat, text: seq<byte>, rest: seq<byte>)
    requires n < 256 && |text| == n && e == Labelled(n, text, rest)
    ensures e[0] == n && e[1..n + 1] == text && e[n + 1..] == rest
  {
  }

  lemma HoldsPart(flat: seq<byte>, off: nat, e: seq<byte>, i: nat, j: nat)
    requires Holds(flat, off, e) && i <= j <= |e|
    ensures Holds(flat, off + i, e[i..j])
  {
    forall k | 0 <= k < j - i ensures Lower(flat[off + i + k]) == Lower(e[i..j][k]) {
      assert e[i..j][k] == e[i + k];
    }
  }

  /** Length, label and rest of an encoding found in a packet. */
  lemma EncodedParts(s: seq<byte>, flat: seq<byte>, off: nat)
    requires IsHostName(s) && Holds(flat, off, Encoded(s))
    ensures var n := FirstLabel(s);
      && off + n + 1 < |flat| && flat[off] == n && Holds(flat, off + 1, s[..n])
      && (if n == |s| then flat[off + n + 1] == 0 else
            flat[off + n + 1] != 0 && Holds(flat, off + n + 1, Encoded(s[n + 1..])))
  {
    hide Encoded, FirstLabel, IsHostName, Holds, Lower;
    HostNameParts(s);
    var n, e := FirstLabel(s), Encoded(s);
    EncodedAt(s);
    EncodedLength(s);
    EncodedFirst(s, flat, off);
    HoldsPart(flat, off, e, 1, n + 1);
    HoldsPart(flat, off, e, n + 1, |e|);
    assert e[n + 1..|e|] == e[n + 1..];
    if n < |s| { EncodedFirst(s[n + 1..], flat, off + n + 1); } else { RootHeld(flat, off + n + 1); }
  }

  lemma EncodedFirst(s: seq<byte>, flat: seq<byte>, off: nat)
    requires IsHostName(s) && Holds(flat, off, Encoded(s))
    ensures off < |flat| && flat[off] == FirstLabel(s) && 1 <= flat[off] <= 63
  {
    hide Encoded, FirstLabel, IsHostName, Holds, Lower;
    HostNameParts(s);
    EncodedAt(s);
    EncodedLength(s);
    HoldsAt(flat, off, Encoded(s), 0);
    SameLength(flat[off], FirstLabel(s));
  }

  lemma RootHeld(flat: seq<byte>, off: nat)
    requires Holds(flat, off, ROOT)
    ensures off < |flat| && flat[off] == 0
  {
    HoldsAt(flat, off, ROOT, 0);
    SameLength(flat[off], 0);
  }

  /** A length octet is the same in any letter case. */
  lemma SameLength(a: byte, b: byte)
    requires Lower(a) == Lower(b) && b <= 63
    ensures a == b
  {
  }

  lemma HoldsAt(flat: seq<byte>, off: nat, e: seq<byte>, k: nat)
    requires Holds(flat, off, e) && k < |e|
    ensures off + k < |flat| && Lower(flat[off + k]) == Lower(e[k])
  {
  }

  lemma HostNameParts(s: seq<byte>)
    requires IsHostName(s)
    ensures var n := FirstLabel(s); 1 <= n <= 63 && n <= |s| && (n < |s| ==> IsHostName(s[n + 1..]))
  {
  }

  /** Whenever dns_compare_name accepts, dns_skip_name finds the same end. */
  lemma {:induction false} SkipAgrees(query: nat -> byte, qi: nat, flat: seq<byte>, off: nat)
    requires Matched(query, qi, flat, off).Some?
    ensures Skipped(flat, off) == Matched(query, qi, flat, off)
    decreases |flat| - off
  {
    var next := off + 1 + flat[off];
    if flat[next] != 0 {
      SkipAgrees(query, qi + flat[off] + 1, flat, next);
    }
  }

  // ---------- What acceptance means ----------

  /** The length octets at off are those of the encoding of s. */
  ghost predicate SameLengths(flat: seq<byte>, off: nat, s: seq<byte>)
    decreases |s|
  {
    var n := FirstLabel(s);
    && off + n + 1 < |flat| && flat[off] == n
    && if n < |s| then flat[off + n + 1] != 0 && SameLengths(flat, off + n + 1, s[n + 1..]) else flat[off + n + 1] == 0
  }

  lemma {:induction false} EncodedSameLengths(s: seq<byte>, flat: seq<byte>, off: nat)
    requires IsHostName(s) && Holds(flat, off, Encoded(s))
    ensures SameLengths(flat, off, s)
    decreases |s|
  {
    hide Encoded, Holds, FirstLabel, IsHostName;
    HostNameParts(s);
    EncodedParts(s, flat, off);
    if FirstLabel(s) < |s| { EncodedSameLengths(s[FirstLabel(s) + 1..], flat, off + FirstLabel(s) + 1); }
  }

  /** Among the packets with the length octets of the encoding, exactly those with the name are accepted. */
  lemma {:induction false} AcceptedIffEncoded(s: seq<byte>, query: nat -> byte, qi: nat, flat: seq<byte>, off: nat)
    requires IsHostName(s) && Reads(query, qi, s) && SameLengths(flat, off, s)
    ensures Matched(query, qi, flat, off).Some? <==> Holds(flat, off, Encoded(s))
    decreases |s|
  {
    if Holds(flat, off, Encoded(s)) {
      EncodedIsMatched(s, query, qi, flat, off);
    } else if Matched(query, qi, flat, off).Some? {
      MatchedIsEncoded(s, query, qi, flat, off);
    }
  }

  lemma {:induction false} MatchedIsEncoded(s: seq<byte>, query: nat -> byte, qi: nat, flat: seq<byte>, off: nat)
    requires IsHostName(s) && Reads(query, qi, s) && SameLengths(flat, off, s) && Matched(query, qi, flat, off).Some?
    ensures Holds(flat, off, Encoded(s))
    decreases |s|
  {
    hide Encoded, Holds, Reads, SameLabel, FirstLabel, IsHostName;
    HostNameParts(s);
    var n := FirstLabel(s);
    MatchedLabel(s, query, qi, flat, off);
    if n < |s| {
      ReadsRest(query, qi, s, n + 1);
      MatchedIsEncoded(s[n + 1..], query, qi + n + 1, flat, off + n + 1);
    } else {
      HoldsRoot(flat, off + n + 1);
    }
    EncodedAt(s);
    EncodedLength(s);
    HoldsWhole(flat, off, Encoded(s), n);
  }

  lemma HoldsRoot(flat: seq<byte>, off: nat)
    requires off < |flat| && flat[off] == 0
    ensures Holds(flat, off, ROOT)
  {
  }

  lemma MatchedLabel(s: seq<byte>, query: nat -> byte, qi: nat, flat: seq<byte>, off: nat)
    requires FirstLabel(s) <= |s| && off + 1 + FirstLabel(s) <= |flat|
    requires Reads(query, qi, s) && SameLabel(query, qi, flat, off + 1, FirstLabel(s))
    ensures Holds(flat, off + 1, s[..FirstLabel(s)])
  {
    var n := FirstLabel(s);
    forall k | 0 <= k < n ensures Lower(flat[off + 1 + k]) == Lower(s[..n][k]) {
      var j := off + 1 + k;
      assert Lower(query(qi + (j - (off + 1)))) == Lower(flat[j]) && j - (off + 1) == k;
      assert s[..n][k] == s[k];
    }
  }

  lemma HoldsWhole(flat: seq<byte>, off: nat, e: seq<byte>, n: nat)
    requires n + 1 < |e| && off + 1 < |flat| && Lower(flat[off]) == Lower(e[0])
    requires Holds(flat, off + 1, e[1..n + 1]) && Holds(flat, off + n + 1, e[n + 1..])
    ensures Holds(flat, off, e)
  {
    forall k | 0 <= k < |e| ensures Lower(flat[off + k]) == Lower(e[k]) {
      if 0 < k <= n {
        assert e[k] == e[1..n + 1][k - 1] && Lower(flat[off + 1 + (k - 1)]) == Lower(e[1..n + 1][k - 1]);
      } else if n < k {
        assert e[k] == e[n + 1..][k - n - 1] && Lower(flat[off + n + 1 + (k - n - 1)]) == Lower(e[n + 1..][k - n - 1]);
      }
    }
  }

  /** An accepted name is the one asked for exactly if its labels are as long as those of the query. */
  lemma AcceptedIsTheQuery(s: seq<byte>, query: nat -> byte, qi: nat, flat: seq<byte>, off: nat)
    requires IsHostName(s) && Reads(query, qi, s) && Matched(query, qi, flat, off).Some?
    ensures Holds(flat, off, Encoded(s)) <==> SameLengths(flat, off, s)
  {
    hide Encoded, Holds, Reads, IsHostName, Matched;
    if Holds(flat, off, Encoded(s)) {
      EncodedSameLengths(s, flat, off);
    } else if SameLengths(flat, off, s) {
      AcceptedIffEncoded(s, query, qi, flat, off);
    }
  }

  /** What stands between the labels is not compared, so ab.cd is accepted for the query abxcd. */
  lemma SeparatorIsNotCompared(query: nat -> byte)
    requires Reads(query, 0, [97, 98, 120, 99, 100])
    ensures Encoded([97, 98, DOT, 99, 100]) == [2, 97, 98, 2, 99, 100, 0]
    ensures Matched(query, 0, [2, 97, 98, 2, 99, 100, 0], 0) == Some(7)
  {
    var s, t, flat := [97, 98, DOT, 99, 100], [97, 98, 120, 99, 100], [2, 97, 98, 2, 99, 100, 0];
    assert s[1..] == [98, DOT, 99, 100] && s[1..][1..] == [DOT, 99, 100] && s[3..] == [99, 100];
    assert [99, 100][1..] == [100] && [100][1..] == [];
    assert FirstLabel([100]) == 1 && FirstLabel([99, 100]) == 2;
    assert FirstLabel(s[1..]) == 1 by { assert FirstLabel([DOT, 99, 100]) == 0; }
    assert FirstLabel(s) == 1 + FirstLabel(s[1..]);
    assert Encoded(s[3..]) == [2, 99, 100, 0];
    forall k | 0 <= k < |s| ensures AgreesAt(query, 0, s, k) { assert k != 2 ==> t[k] == s[k] && Lower(query(0 + k)) == Lower(t[k]); }
    AcceptedIffLabelsAgree(s, query, 0, flat, 0);
  }

  /** The end of the query is not looked at: any beginning of the name asked for is accepted. */
  lemma ShorterNameAccepted(s: seq<byte>, n: nat, query: nat -> byte, flat: seq<byte>, off: nat)
    requires n <= |s| && IsHostName(s[..n]) && Reads(query, 0, s) && Holds(flat, off, Encoded(s[..n]))
    ensures Matched(query, 0, flat, off) == Some(off + n + 2)
  {
    forall k | 0 <= k < n ensures AgreesAt(query, 0, s[..n], k) { assert Lower(query(0 + k)) == Lower(s[k]); }
    hide Encoded, Holds, IsHostName, Matched;
    AcceptedIffLabelsAgree(s[..n], query, 0, flat, off);
  }

  /** The offset behind the name at off as section 4.1.4 of RFC 1035 has it: a zero octet ends the name, a pointer
      is its last two octets, and any other octet is the length of a label with more of the name behind it. */
  function NameEnd(flat: seq<byte>, off: nat): Option<nat>
    decreases |flat| - off
  {
    if off >= |flat| then None
    else if flat[off] == 0 then Some(off + 1)
    else if flat[off] >= 192 then Some(off + 2)
    else NameEnd(flat, off + 1 + flat[off])
  }

  /** Names are skipped right, but for the root, a single zero. */
  lemma SkippedRightIff(flat: seq<byte>, off: nat)
    ensures Skipped(flat, off) == NameEnd(flat, off) <==> off >= |flat| || flat[off] != 0
  {
    if off < |flat| && flat[off] != 0 {
      SkippedRight(flat, off);
    } else if off + 1 < |flat| && flat[off + 1] != 0 {
      SkippedBehind(flat, off + 1);
    }
  }

  lemma {:induction false} SkippedRight(flat: seq<byte>, off: nat)
    requires off < |flat| && flat[off] != 0
    ensures Skipped(flat, off) == NameEnd(flat, off)
    decreases |flat| - off
  {
    var next := off + 1 + flat[off];
    if next < |flat| && flat[off] < 192 && flat[next] != 0 { SkippedRight(flat, next); }
  }

  /** Where dns_compare_name accepts, it reads up to the end of the name, but for the root. */
  lemma ComparedRightIff(query: nat -> byte, qi: nat, flat: seq<byte>, off: nat)
    requires Matched(query, qi, flat, off).Some?
    ensures Matched(query, qi, flat, off) == NameEnd(flat, off) <==> flat[off] != 0
  {
    SkipAgrees(query, qi, flat, off);
    SkippedRightIff(flat, off);
  }

  /** The root is accepted for any query, if another zero follows it. */
  lemma RootIsAccepted(query: nat -> byte, qi: nat, flat: seq<byte>, off: nat)
    requires off + 1 < |flat| && flat[off] == 0 == flat[off + 1]
    ensures Matched(query, qi, flat, off) == Some(off + 2)
  {
    assert SameLabel(query, qi, flat, off + 1, 0);
  }

  lemma {:induction false} SkippedBehind(flat: seq<byte>, off: nat)
    ensures Skipped(flat, off).Some? ==> off + 1 < Skipped(flat, off).value
    decreases |flat| - off
  {
    if off < |flat| && flat[off] < 192 && off + 1 + flat[off] < |flat| && flat[off + 1 + flat[off]] != 0 {
      SkippedBehind(flat, off + 1 + flat[off]);
    }
  }

  // ---------- The encoder ----------

  /** What is written so far, and the rest of the name, make up its encoding. */
  ghost predicate Encoding(name: seq<byte>, i: nat, done: seq<byte>) {
    i <= |name| && |done| == i && Encoded(name) == done + Encoded(name[i..])
  }

  /** One more label, behind its length. */
  lemma EncodeStep(name: seq<byte>, i: nat, done: seq<byte>, n: nat)
    requires Encoding(name, i, done) && n == FirstLabel(name[i..]) < 256 && i + n <= |name|
    ensures var done' := done + [n] + name[i..i + n];
      if i + n == |name| then Encoded(name) == done' + ROOT else Encoding(name, i + n + 1, done')
  {
    hide Encoded, FirstLabel;
    var rest := name[i..];
    EncodedAt(rest);
    EncodedLength(rest);
    Slices(name, i, n);
    Pieced(Encoded(rest), n);
    Joined(done, n, name[i..i + n], Encoded(rest)[n + 1..]);
  }

  lemma Slices(s: seq<byte>, i: nat, n: nat)
    requires i + n <= |s|
    ensures s[i..][..n] == s[i..i + n] && (i + n < |s| ==> s[i..][n + 1..] == s[i + n + 1..])
  {
  }

  lemma Pieced(e: seq<byte>, n: nat)
    requires n + 1 <= |e| && e[0] == n
    ensures e == [n] + e[1..n + 1] + e[n + 1..]
  {
  }

  lemma Joined(done: seq<byte>, n: byte, text: seq<byte>, rest: seq<byte>)
    ensures done + ([n] + text + rest) == done + [n] + text + rest
  {
  }

  /** Find the end of the label that starts at `part`. */
  method LabelEnd(name: seq<byte>, part: nat) returns (i: nat)
    requires part <= |name|
    ensures i == part + FirstLabel(name[part..]) && i <= |name|
  {
    hide FirstLabel;
    i := part;
    while i < |name| && name[i] != DOT
      invariant i <= |name| && i - part + FirstLabel(name[i..]) == FirstLabel(name[part..])
    {
      FirstLabelNext(name, i);
      i := i + 1;
    }
    FirstLabelNext(name, i);
  }

  lemma FirstLabelNext(name: seq<byte>, i: nat)
    requires i <= |name|
    ensures FirstLabel(name[i..]) == if i == |name| || name[i] == DOT then 0 else 1 + FirstLabel(name[i + 1..])
  {
    if i < |name| { assert name[i..][1..] == name[i + 1..]; }
  }

  /** A label behind its length. */
  method PutLabel(s: Memory, text: seq<byte>, at: nat, p: Option<nat>, ghost c: seq<nat>)
    requires Sized(s.mem, p, c) && |text| < 256 && at + 1 + |text| < |Flat(s.mem, c)|
    modifies s
    ensures Wrote(old(s.mem), s.mem, p, c, at, [|text|] + text)
  {
    ghost var m0 := s.mem;
    s.PutAt(p, at, |text|, c);
    ghost var m1 := s.mem;
    WroteLength(m0, m1, p, c, at, [|text|]);
    var err := s.TakeAt(p, text, at + 1, c);
    WroteMore(m0, m1, s.mem, p, c, at, [|text|], text);
  }

  lemma WroteLength(m0: seq<Pbuf>, m: seq<Pbuf>, p: Option<nat>, c: seq<nat>, k: nat, bytes: seq<byte>)
    requires Wrote(m0, m, p, c, k, bytes)
    ensures Sized(m, p, c) && Sized(m0, p, c) && |Flat(m, c)| == |Flat(m0, c)|
  {
  }

  /** The name part of dns_send: the encoding of the name behind the header; the buffer was
      allocated for it and the rest of the query. */
  method EncodeName(s: Memory, name: seq<byte>, p: Option<nat>, ghost c: seq<nat>) returns (queryIdx: nat)
    requires Sized(s.mem, p, c) && |name| < 256 && HDR + |name| + 2 < |Flat(s.mem, c)|
    modifies s
    ensures queryIdx == HDR + |name| + 2 && Wrote(old(s.mem), s.mem, p, c, HDR, Encoded(name))
  {
    hide Sized, Wrote, Flat, Encoded, FirstLabel, EncodedTo, EncodedAll;
    ghost var m0 := s.mem;
    EncodeStart(m0, name, p, c);
    var i: nat := 0;
    ghost var done: seq<byte> := [];
    queryIdx := HDR;
    while true
      invariant i <= |name| && queryIdx == HDR + i && EncodedTo(m0, s.mem, p, c, name, i, done)
      decreases |name| - i
    {
      ghost var m := s.mem;
      EncodeRoom(m0, m, p, c, name, i, done);
      var part := i;
      i := LabelEnd(name, part);
      var n := i - part;
      assert queryIdx + n + 1 <= 0xFFFF;
      PutLabel(s, name[part..i], queryIdx, p, c);
      EncodeRound(m0, m, s.mem, p, c, name, part, done, n);
      done := done + [n] + name[part..i];
      queryIdx := queryIdx + n + 1;
      if i == |name| {
        break;
      }
      i := i + 1;
    }
    ghost var m := s.mem;
    EncodeLast(m0, m, p, c, name, done);
    s.PutAt(p, queryIdx, 0, c);
    WroteMore(m0, m, s.mem, p, c, HDR, done, ROOT);
    queryIdx := queryIdx + 1;
  }

  /** The packet holds the encoding of the labels before i. */
  ghost predicate EncodedTo(m0: seq<Pbuf>, m: seq<Pbuf>, p: Option<nat>, c: seq<nat>, name: seq<byte>, i: nat, done: seq<byte>) {
    && Wrote(m0, m, p, c, HDR, done) && HDR + |name| + 2 < |Flat(m0, c)| && |name| < 256
    && Encoding(name, i, done)
  }

  /** All labels are written, but not the zero at the end. */
  ghost predicate EncodedAll(m0: seq<Pbuf>, m: seq<Pbuf>, p: Option<nat>, c: seq<nat>, name: seq<byte>, done: seq<byte>) {
    && Wrote(m0, m, p, c, HDR, done) && HDR + |name| + 2 < |Flat(m0, c)|
    && |done| == |name| + 1 && Encoded(name) == done + ROOT
  }

  lemma EncodeStart(m: seq<Pbuf>, name: seq<byte>, p: Option<nat>, c: seq<nat>)
    requires Sized(m, p, c) && |name| < 256 && HDR + |name| + 2 < |Flat(m, c)|
    ensures EncodedTo(m, m, p, c, name, 0, [])
  {
    assert name[0..] == name;
    NothingWritten(m, p, c, HDR);
    hide Encoded;
  }

  lemma EncodeRoom(m0: seq<Pbuf>, m: seq<Pbuf>, p: Option<nat>, c: seq<nat>, name: seq<byte>, i: nat, done: seq<byte>)
    requires EncodedTo(m0, m, p, c, name, i, done)
    ensures Sized(m, p, c) && HDR + |name| + 2 < |Flat(m, c)| < M16 && |name| < 256 && |done| == i <= |name|
  {
  }

  lemma EncodeRound(m0: seq<Pbuf>, m: seq<Pbuf>, m': seq<Pbuf>, p: Option<nat>, c: seq<nat>, name: seq<byte>, i: nat,
                    done: seq<byte>, n: nat)
    requires EncodedTo(m0, m, p, c, name, i, done) && i + n <= |name| && n == FirstLabel(name[i..]) < 256
    requires Wrote(m, m', p, c, HDR + i, [n] + name[i..i + n])
    ensures var done' := done + [n] + name[i..i + n];
      if i + n == |name| then EncodedAll(m0, m', p, c, name, done') else EncodedTo(m0, m', p, c, name, i + n + 1, done')
  {
    EncodeStep(name, i, done, n);
    hide Encoded, FirstLabel, Wrote;
    WroteMore(m0, m, m', p, c, HDR, done, [n] + name[i..i + n]);
    assert done + ([n] + name[i..i + n]) == done + [n] + name[i..i + n];
  }

  lemma EncodeLast(m0: seq<Pbuf>, m: seq<Pbuf>, p: Option<nat>, c: seq<nat>, name: seq<byte>, done: seq<byte>)
    requires EncodedAll(m0, m, p, c, name, done)
    ensures Sized(m, p, c) && HDR + |name| + 1 < |Flat(m, c)| && |done| == |name| + 1
    ensures Wrote(m0, m, p, c, HDR, done) && Encoded(name) == done + ROOT
  {
  }

  /** The round trip: what EncodeName wrote, both decoders read up to just behind it. */
  lemma WrittenNameIsRead(m0: seq<Pbuf>, m: seq<Pbuf>, p: Option<nat>, c: seq<nat>, name: seq<byte>, query: nat -> byte)
    requires Wrote(m0, m, p, c, HDR, Encoded(name)) && IsHostName(name) && Reads(query, 0, name)
    ensures Offset(Matched(query, 0, Flat(m, c), HDR)) == HDR + |name| + 2
    ensures Offset(Skipped(Flat(m, c), HDR)) == HDR + |name| + 2
  {
    hide Encoded, IsHostName, Reads, Matched, Skipped, Holds, Wrote, Sized, Flat;
    WroteLength(m0, m, p, c, HDR, Encoded(name));
    EncodedLength(name);
    WrittenHolds(m0, m, p, c, HDR, Encoded(name));
    EncodedIsMatched(name, query, 0, Flat(m, c), HDR);
    SkipAgrees(query, 0, Flat(m, c), HDR);
  }

  lemma WrittenHolds(m0: seq<Pbuf>, m: seq<Pbuf>, p: Option<nat>, c: seq<nat>, k: nat, bytes: seq<byte>)
    requires Wrote(m0, m, p, c, k, bytes)
    ensures (forall i :: 0 <= i < |c| ==> c[i] < |m|) && k + |bytes| <= |Flat(m, c)| < M16 && Holds(Flat(m, c), k, bytes)
  {
    SplicedHolds(Flat(m0, c), k, bytes);
    hide SameShape, Packet, Holds;
  }

  lemma SplicedHolds(flat: seq<byte>, k: nat, bytes: seq<byte>)
    requires k + |bytes| <= |flat|
    ensures Holds(Splice(flat, k, bytes), k, bytes)
  {
    forall i | 0 <= i < |bytes| ensures Splice(flat, k, bytes)[k + i] == bytes[i] {}
  }
}
