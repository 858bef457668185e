/** select_cb_list as the program keeps it, and the scan of the three descriptor sets. */
module SelectList {
  import opened Select

  /** struct lwip_select_cb: the links; the rest of it is in Select.Call. */
  class SelectCb {
    var next: SelectCb?
    var prev: SelectCb?

    /** memset to zero */
    constructor ()
      ensures next == null && prev == null
    {
      next, prev := null, null;
    }
  }

  class SelectCbList {
    var first: SelectCb?
    ghost var nodes: seq<SelectCb>

    /** `nodes` are linked in both directions, starting at `first`. */
    ghost predicate Valid()
      reads this, nodes
    {
      && (forall i, j :: 0 <= i < j < |nodes| ==> nodes[i] != nodes[j])
      && (first == null <==> nodes == [])
      && (nodes != [] ==> first == nodes[0] && nodes[0].prev == null && nodes[|nodes| - 1].next == null)
      && (forall i, j :: 0 <= i && j == i + 1 && j < |nodes| ==> nodes[i].next == nodes[j] && nodes[j].prev == nodes[i])
    }

    constructor ()
      ensures Valid() && nodes == []
    {
      first, nodes := null, [];
    }

    /** lwip_link_select_cb */
    method Link(cb: SelectCb)
      requires Valid() && cb !in nodes && cb.next == null && cb.prev == null
      modifies this, cb, nodes
      ensures Valid() && nodes == [cb] + old(nodes)
    {
      cb.next := first;
      if first != null {
        first.prev := cb;
      }
      first := cb;
      nodes := [cb] + nodes;
    }

    /** lwip_unlink_select_cb; the two assertions of the code hold. */
    method Unlink(cb: SelectCb, ghost k: nat)
      requires Valid() && k < |nodes| && nodes[k] == cb
      modifies this, nodes
      ensures Valid() && nodes == old(nodes)[..k] + old(nodes)[k + 1..]
    {
      ghost var was := nodes;
      assert k + 1 < |was| ==> was[k].next == was[k + 1] && was[k + 1].prev == was[k];
      assert 0 < k ==> was[k - 1].next == was[k] && was[k].prev == was[k - 1];
      if cb.next != null {
        assert k + 1 < |was|;
        cb.next.prev := cb.prev;
      }
      if first == cb {
        assert cb.prev == null;
        first := cb.next;
      } else {
        assert 0 < k && cb.prev == was[k - 1];
        cb.prev.next := cb.next;
      }
      nodes := was[..k] + was[k + 1..];
    }
  }

  /** The descriptors below n of a set whose socket has an event of the kind. */
  function Hit(socks: seq<Sock>, fds: set<nat>, k: Kind, n: nat): set<nat> {
    set i | i in fds && i < n && i < |socks| && socks[i].Scanned(k)
  }

  lemma HitNext(socks: seq<Sock>, fds: set<nat>, k: Kind, n: nat)
    ensures n in fds && n < |socks| && socks[n].Scanned(k) ==>
      Hit(socks, fds, k, n + 1) == Hit(socks, fds, k, n) + {n}
      && |Hit(socks, fds, k, n + 1)| == |Hit(socks, fds, k, n)| + 1
    ensures !(n in fds && n < |socks| && socks[n].Scanned(k)) ==> Hit(socks, fds, k, n + 1) == Hit(socks, fds, k, n)
  {
    if n in fds && n < |socks| && socks[n].Scanned(k) {
      assert Hit(socks, fds, k, n + 1) == Hit(socks, fds, k, n) + {n};
    } else {
      assert Hit(socks, fds, k, n + 1) == Hit(socks, fds, k, n);
    }
  }

  /** What the scans of a call that nothing interferes with add up. */
  function TotalHits(call: Call, socks: seq<Sock>, n: nat): nat
    requires n <= |socks|
  {
    if n == 0 then 0 else TotalHits(call, socks, n - 1) + Hits(call, n - 1, socks[n - 1])
  }

  /** The steps of a call count what lwip_selscan counts. */
  lemma {:induction false} HitsAreCounted(call: Call, socks: seq<Sock>, n: nat)
    requires n <= |socks|
    ensures TotalHits(call, socks, n)
         == |Hit(socks, call.readset, Recv, n)| + |Hit(socks, call.writeset, Send, n)| + |Hit(socks, call.exceptset, Except, n)|
  {
    if n == 0 {
      assert Hit(socks, call.readset, Recv, 0) == Hit(socks, call.writeset, Send, 0) == Hit(socks, call.exceptset, Except, 0) == {};
    } else {
      HitsAreCounted(call, socks, n - 1);
      HitNext(socks, call.readset, Recv, n - 1);
      HitNext(socks, call.writeset, Send, n - 1);
      HitNext(socks, call.exceptset, Except, n - 1);
    }
  }

  /** lwip_selscan, when nothing interferes: -1 for a descriptor that is no socket, otherwise
      the sockets that have an event of each kind, and how many there are in all. */
  method SelScan(socks: seq<Sock>, maxfdp1: nat, readset: set<nat>, writeset: set<nat>, exceptset: set<nat>)
    returns (nready: int, lread: set<nat>, lwrite: set<nat>, lexcept: set<nat>)
    ensures nready == -1 <==> exists i :: |socks| <= i < maxfdp1 && (i in readset || i in writeset || i in exceptset)
    ensures nready != -1 ==>
      && lread == Hit(socks, readset, Recv, maxfdp1)
      && lwrite == Hit(socks, writeset, Send, maxfdp1)
      && lexcept == Hit(socks, exceptset, Except, maxfdp1)
      && nready == |lread| + |lwrite| + |lexcept|
  {
    nready, lread, lwrite, lexcept := 0, {}, {}, {};
    assert Hit(socks, readset, Recv, 0) == Hit(socks, writeset, Send, 0) == Hit(socks, exceptset, Except, 0) == {};
    hide Hit;
    for i := 0 to maxfdp1
      invariant lread == Hit(socks, readset, Recv, i)
      invariant lwrite == Hit(socks, writeset, Send, i)
      invariant lexcept == Hit(socks, exceptset, Except, i)
      invariant nready == |lread| + |lwrite| + |lexcept|
      invariant forall j :: |socks| <= j < i ==> j !in readset && j !in writeset && j !in exceptset
    {
      HitNext(socks, readset, Recv, i);
      HitNext(socks, writeset, Send, i);
      HitNext(socks, exceptset, Except, i);
      if i in readset || i in writeset || i in exceptset {
        if |socks| <= i {
          return -1, {}, {}, {};
        }
        if i in readset && (socks[i].lastdata || 0 < socks[i].rcvevent) {
          lread := lread + {i};
          nready := nready + 1;
        }
        if i in writeset && socks[i].sendevent {
          lwrite := lwrite + {i};
          nready := nready + 1;
        }
        if i in exceptset && socks[i].errevent {
          lexcept := lexcept + {i};
          nready := nready + 1;
        }
      }
    }
  }
}
