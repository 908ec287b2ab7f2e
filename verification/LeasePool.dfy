/**
  The DHCP lease allocator and the server's DISCOVER, REQUEST and RELEASE steps: dhcp/package/leasepool.cc, leasetable.cc,
  dhcpserveroffer.cc, dhcpserverack.cc, dhcpserverrelease.cc.
 */
module Leases {
  import opened Common

  type IP = x: int | 0 <= x < 0x1_0000_0000
  type Eth = nat

  datatype Lease = Lease(eth: Eth, ip: IP, start: int, end: int, duration: int, valid: bool)

  /** Two lease maps, the free table, and the free list with its stale and duplicate entries. */
  datatype Pool = Pool(free: set<IP>, freeList: seq<IP>, leases: map<IP, Lease>, ips: map<Eth, IP>)

  // --- Operations ------------------------------------------------------------------------

  function Lookup(p: Pool, ip: IP): Option<Lease> {
    if ip in p.leases then Some(p.leases[ip]) else None
  }

  function RevLookup(p: Pool, eth: Eth): Option<Lease> {
    if eth in p.ips then Lookup(p, p.ips[eth]) else None
  }

  function Insert(p: Pool, l: Lease): Pool {
    p.(free := p.free - {l.ip}, ips := p.ips[l.eth := l.ip], leases := p.leases[l.ip := l])
  }

  function FreshLease(eth: Eth, ip: IP, now: int): Lease {
    Lease(eth, ip, now, now + 60, 60, false)
  }

  /** `new_lease`; the table's `get` yields the stored address, so 0.0.0.0 never counts as free. */
  function NewLease(p: Pool, eth: Eth, ip: IP, now: int): (Pool, Option<Lease>) {
    if RevLookup(p, eth).Some? then (p, RevLookup(p, eth))
    else if ip != 0 && ip in p.free then
      var q := Insert(p, FreshLease(eth, ip, now));
      (q, Lookup(q, ip))
    else (p, None)
  }

  /** The loop of `new_lease_any`: pop candidates until one is free. */
  function Draw(p: Pool, eth: Eth, now: int): (Pool, Option<Lease>)
    decreases |p.freeList|
  {
    if p.freeList == [] then (p, None) else
    var next, q := p.freeList[0], p.(freeList := p.freeList[1..]);
    if next in q.free then NewLease(q, eth, next, now) else Draw(q, eth, now)
  }

  function NewLeaseAny(p: Pool, eth: Eth, now: int): (Pool, Option<Lease>) {
    if RevLookup(p, eth).Some? then (p, RevLookup(p, eth)) else Draw(p, eth, now)
  }

  function Remove(p: Pool, eth: Eth): Pool {
    match RevLookup(p, eth)
    case None => p
    case Some(l) =>
      p.(free := p.free + {l.ip}, freeList := p.freeList + [l.ip], leases := p.leases - {l.ip}, ips := p.ips - {eth})
  }

  /** start, start + 1, ..., end */
  function Range(start: IP, end: IP): (r: seq<IP>)
    requires start <= end
    ensures r != [] && r[0] == start
    ensures forall x :: x in r <==> start <= x <= end
    decreases end - start
  {
    if start == end then [start] else [start] + Range(start + 1, end)
  }

  function Addresses(start: IP, end: IP): set<IP>
    requires start <= end
  {
    set x | x in Range(start, end)
  }

  /** The pool `configure` fills. */
  function Fill(start: IP, end: IP): Pool
    requires start <= end
  {
    Pool(Addresses(start, end), Range(start, end), map[], map[])
  }

  // --- Invariant ---------------------------------------------------------------------------

  predicate EthOk(p: Pool, e: Eth)
    requires e in p.ips
  {
    p.ips[e] in p.leases && p.leases[p.ips[e]].eth == e
  }

  predicate IpOk(p: Pool, ip: IP)
    requires ip in p.leases
  {
    p.leases[ip].ip == ip && p.leases[ip].eth in p.ips && p.ips[p.leases[ip].eth] == ip
  }

  /** Free and leased addresses partition the pool, the lease maps are mutual inverses, every free address is listed. */
  predicate Inv(p: Pool, range: set<IP>) {
    && p.free + p.leases.Keys == range && p.free !! p.leases.Keys
    && (forall e {:trigger EthOk(p, e)} :: e in p.ips ==> EthOk(p, e))
    && (forall ip {:trigger IpOk(p, ip)} :: ip in p.leases ==> IpOk(p, ip))
    && (forall ip :: ip in p.free ==> ip in p.freeList)
    && 0 !in range
  }

  lemma FillInv(start: IP, end: IP)
    requires 0 < start <= end
    ensures Inv(Fill(start, end), Addresses(start, end))
  {
  }

  lemma InsertKeepsInv(p: Pool, range: set<IP>, l: Lease, q: Pool)
    requires p.free + p.leases.Keys == range && p.free !! p.leases.Keys && 0 !in range
    requires forall e {:trigger EthOk(p, e)} :: e in p.ips ==> EthOk(p, e)
    requires forall ip {:trigger IpOk(p, ip)} :: ip in p.leases ==> IpOk(p, ip)
    requires forall ip :: ip in p.free && ip != l.ip ==> ip in p.freeList
    requires l.ip in p.free && l.eth !in p.ips && q == Insert(p, l)
    ensures Inv(q, range) && RevLookup(q, l.eth) == Some(l)
  {
    forall e | e in q.ips
      ensures EthOk(q, e)
    {
      if e != l.eth {
        assert EthOk(p, e);
      }
    }
    forall ip | ip in q.leases
      ensures IpOk(q, ip)
    {
      if ip != l.ip {
        assert IpOk(p, ip);
      }
    }
  }

  /** An address that has no lease has no entry in either map. */
  lemma NoLease(p: Pool, range: set<IP>, e: Eth)
    requires Inv(p, range)
    ensures RevLookup(p, e).Some? <==> e in p.ips
    ensures RevLookup(p, e).Some? ==> RevLookup(p, e).value.eth == e && RevLookup(p, e).value.ip == p.ips[e]
  {
    if e in p.ips {
      assert EthOk(p, e);
      assert IpOk(p, p.ips[e]);
    }
  }

  lemma FoundByEth(p: Pool, range: set<IP>, e: Eth)
    requires Inv(p, range)
    ensures var l := RevLookup(p, e);
            if l.Some? then l.value.eth == e && Lookup(p, l.value.ip) == l
            else forall ip :: ip in p.leases ==> p.leases[ip].eth != e
  {
    NoLease(p, range, e);
    forall ip | ip in p.leases && p.leases[ip].eth == e
      ensures e in p.ips
    {
      assert IpOk(p, ip);
    }
  }

  lemma FoundByIp(p: Pool, range: set<IP>, ip: IP)
    requires Inv(p, range)
    ensures var l := Lookup(p, ip);
            if l.Some? then l.value.ip == ip && RevLookup(p, l.value.eth) == l
            else forall e :: e in p.ips ==> p.ips[e] != ip
  {
    if ip in p.leases {
      assert IpOk(p, ip);
    }
    forall e | e in p.ips && p.ips[e] == ip
      ensures ip in p.leases
    {
      assert EthOk(p, e);
    }
  }

  lemma NewLeaseKeepsInv(p: Pool, range: set<IP>, eth: Eth, ip: IP, now: int)
    requires Inv(p, range)
    ensures var (q, r) := NewLease(p, eth, ip, now);
            && Inv(q, range) && r == RevLookup(q, eth)
            && (r.None? <==> eth !in p.ips && ip !in p.free)
            && forall e :: e in p.ips ==> e in q.ips && q.ips[e] == p.ips[e]
  {
    NoLease(p, range, eth);
    if eth !in p.ips && ip in p.free {
      InsertKeepsInv(p, range, FreshLease(eth, ip, now), Insert(p, FreshLease(eth, ip, now)));
    }
  }

  /** While the list still holds every free address, drawing succeeds exactly when something is free. */
  lemma {:induction false} DrawKeepsInv(p: Pool, range: set<IP>, eth: Eth, now: int)
    requires Inv(p, range) && eth !in p.ips
    ensures var (q, r) := Draw(p, eth, now);
            && Inv(q, range) && r == RevLookup(q, eth)
            && (r.None? <==> p.free == {})
            && forall e :: e in p.ips ==> e in q.ips && q.ips[e] == p.ips[e]
    decreases |p.freeList|
  {
    NoLease(p, range, eth);
    if p.freeList != [] {
      var next, q := p.freeList[0], p.(freeList := p.freeList[1..]);
      if next in q.free {
        var l := FreshLease(eth, next, now);
        forall e | e in q.ips
          ensures EthOk(q, e)
        {
          assert EthOk(p, e);
        }
        forall ip | ip in q.leases
          ensures IpOk(q, ip)
        {
          assert IpOk(p, ip);
        }
        InsertKeepsInv(q, range, l, Insert(q, l));
      } else {
        StaleEntry(p, range);
        DrawKeepsInv(q, range, eth, now);
      }
    }
  }

  /** Dropping a stale head of the list loses nothing. */
  lemma StaleEntry(p: Pool, range: set<IP>)
    requires Inv(p, range) && p.freeList != [] && p.freeList[0] !in p.free
    ensures Inv(p.(freeList := p.freeList[1..]), range)
  {
    var q := p.(freeList := p.freeList[1..]);
    forall e | e in q.ips
      ensures EthOk(q, e)
    {
      assert EthOk(p, e);
    }
    forall ip | ip in q.leases
      ensures IpOk(q, ip)
    {
      assert IpOk(p, ip);
    }
  }

  /** `new_lease_any` fails only when the client has no lease and nothing is free. */
  lemma NewLeaseAnyExact(p: Pool, range: set<IP>, eth: Eth, now: int)
    requires Inv(p, range)
    ensures var (q, r) := NewLeaseAny(p, eth, now);
            && Inv(q, range) && r == RevLookup(q, eth)
            && (r.None? <==> eth !in p.ips && p.free == {})
            && forall e :: e in p.ips ==> e in q.ips && q.ips[e] == p.ips[e]
  {
    NoLease(p, range, eth);
    if eth !in p.ips {
      DrawKeepsInv(p, range, eth, now);
    }
  }

  /** q is p after the free address ip went to the client: for 60 seconds from now, and not valid yet. */
  predicate Granted(p: Pool, q: Pool, eth: Eth, ip: IP, now: int) {
    && ip in p.free
    && q.free == p.free - {ip}
    && q.ips == p.ips[eth := ip]
    && q.leases == p.leases[ip := Lease(eth, ip, now, now + 60, 60, false)]
  }

  /** The first address of the free list that is still free. */
  predicate FirstFree(p: Pool, k: nat) {
    k < |p.freeList| && p.freeList[k] in p.free && forall j :: 0 <= j < k ==> p.freeList[j] !in p.free
  }

  lemma NewLeaseGives(p: Pool, range: set<IP>, eth: Eth, ip: IP, now: int)
    requires Inv(p, range)
    ensures var q := NewLease(p, eth, ip, now).0;
            if eth !in p.ips && ip in p.free then Granted(p, q, eth, ip, now) && q.freeList == p.freeList else q == p
  {
    NoLease(p, range, eth);
  }

  lemma {:induction false} DrawGives(p: Pool, range: set<IP>, eth: Eth, now: int, k: nat)
    requires Inv(p, range) && eth !in p.ips && FirstFree(p, k)
    ensures var q := Draw(p, eth, now).0;
            Granted(p, q, eth, p.freeList[k], now) && q.freeList == p.freeList[k + 1..]
    decreases k
  {
    NoLease(p, range, eth);
    var rest := p.(freeList := p.freeList[1..]);
    if k > 0 {
      assert p.freeList[0] !in p.free;
      StaleEntry(p, range);
      assert FirstFree(rest, k - 1);
      DrawGives(rest, range, eth, now, k - 1);
    }
  }

  lemma {:induction false} DrawNothing(p: Pool, eth: Eth, now: int)
    requires p.free == {}
    ensures Draw(p, eth, now) == (p.(freeList := []), None)
    decreases |p.freeList|
  {
    if p.freeList != [] {
      DrawNothing(p.(freeList := p.freeList[1..]), eth, now);
    } else {
      assert p == p.(freeList := []);
    }
  }

  lemma {:induction false} SomeFirstFree(free: set<IP>, list: seq<IP>, p: Pool) returns (k: nat)
    requires p.free == free && p.freeList == list && exists x :: x in free && x in list
    ensures FirstFree(p, k)
    decreases |list|
  {
    if list[0] in free {
      k := 0;
    } else {
      var j := SomeFirstFree(free, list[1..], p.(freeList := list[1..]));
      k := j + 1;
    }
  }

  /** Which address `new_lease_any` hands out: the one held, or the first free one of the list, taken off the list. */
  lemma NewLeaseAnyGives(p: Pool, range: set<IP>, eth: Eth, now: int) returns (k: nat)
    requires Inv(p, range)
    ensures var q := NewLeaseAny(p, eth, now).0;
            if eth in p.ips then q == p
            else if p.free == {} then q == p.(freeList := [])
            else FirstFree(p, k) && Granted(p, q, eth, p.freeList[k], now) && q.freeList == p.freeList[k + 1..]
  {
    NoLease(p, range, eth);
    k := 0;
    if eth !in p.ips {
      if p.free == {} {
        DrawNothing(p, eth, now);
      } else {
        var x :| x in p.free;
        k := SomeFirstFree(p.free, p.freeList, p);
        DrawGives(p, range, eth, now, k);
      }
    }
  }

  lemma RemoveKeepsInv(p: Pool, range: set<IP>, eth: Eth)
    requires Inv(p, range)
    ensures var q := Remove(p, eth);
            && Inv(q, range) && eth !in q.ips
            && forall e :: e in p.ips && e != eth ==> e in q.ips && q.ips[e] == p.ips[e]
  {
    NoLease(p, range, eth);
    var q := Remove(p, eth);
    if eth in p.ips {
      forall e | e in q.ips
        ensures EthOk(q, e)
      {
        assert EthOk(p, e) && EthOk(p, eth);
      }
      forall ip | ip in q.leases
        ensures IpOk(q, ip)
      {
        assert IpOk(p, ip);
      }
    }
  }

  /** The fields the server updates in a lease do not touch the maps' structure. */
  lemma RefreshKeepsInv(p: Pool, range: set<IP>, eth: Eth, l: Lease)
    requires Inv(p, range) && eth in p.ips && l.eth == eth && l.ip == p.ips[eth]
    ensures Inv(p.(leases := p.leases[l.ip := l]), range)
  {
    var q := p.(leases := p.leases[l.ip := l]);
    assert EthOk(p, eth);
    forall e | e in q.ips
      ensures EthOk(q, e)
    {
      assert EthOk(p, e);
    }
    forall ip | ip in q.leases
      ensures IpOk(q, ip)
    {
      assert IpOk(p, ip);
    }
  }

  /** A pool that starts at 0.0.0.0 refuses its first client and forgets the address; every other pool serves it. */
  lemma FirstClientServed(start: IP, end: IP, eth: Eth, now: int)
    requires start <= end
    ensures NewLeaseAny(Fill(start, end), eth, now).1.Some? <==> start > 0
  {
    assert Fill(start, end).freeList[0] == start;
  }
}

/** The server steps and what a whole run promises to clients (section 4.3 of RFC 2131). */
module LeaseServer {
  import opened Common
  import opened Leases

  /** Absent address options of a REQUEST read as 0.0.0.0. */
  datatype Message =
    | Discover(eth: Eth, wanted: Option<IP>)
    | Request(eth: Eth, ciaddr: IP, server: IP, wantedIp: IP)
    | Release(eth: Eth, server: IP)

  datatype Reply = Silent | Offer(eth: Eth, ip: IP) | Ack(eth: Eth, ip: IP) | Nak(eth: Eth)

  datatype Input = Input(m: Message, now: int)

  /** `lease->_valid = true` */
  function Validate(p: Pool, l: Lease): Pool {
    p.(leases := p.leases[l.ip := l.(valid := true)])
  }

  /** `lease->_valid = true; lease->extend()`; the new end is start plus now, as the code has it. */
  function Renew(p: Pool, l: Lease, now: int): Pool {
    p.(leases := p.leases[l.ip := l.(valid := true, start := now, end := now + now)])
  }

  function OnDiscover(p: Pool, eth: Eth, wanted: Option<IP>, now: int): (Pool, Reply) {
    var (q, l) := if wanted.Some? then NewLease(p, eth, wanted.value, now) else (p, None);
    var (r, m) := if l.None? then NewLeaseAny(q, eth, now) else (q, l);
    (r, if m.Some? then Offer(eth, m.value.ip) else Silent)
  }

  function OnRequest(p: Pool, eth: Eth, ciaddr: IP, server: IP, wanted: IP, now: int): (Pool, Reply) {
    var lease := RevLookup(p, eth);
    if ciaddr == 0 && wanted == 0 then
      var (q, l) := if lease.None? then NewLeaseAny(p, eth, now) else (p, lease);
      (q, if l.Some? then Ack(eth, l.value.ip) else Silent)
    else if server != 0 && ciaddr == 0 && wanted != 0 then
      if lease.Some? && lease.value.ip == wanted then (Validate(p, lease.value), Ack(eth, wanted)) else (p, Silent)
    else if server == 0 && wanted != 0 && ciaddr == 0 then
      if lease.Some? && lease.value.ip == wanted then
        if lease.value.end < now then (p, Nak(eth)) else (Validate(p, lease.value), Ack(eth, wanted))
      else (p, Silent)
    else if server == 0 && wanted == 0 && ciaddr != 0 then
      if lease.Some? then (Renew(p, lease.value, now), Ack(eth, lease.value.ip)) else (p, Silent)
    else (p, Silent)
  }

  function Step(p: Pool, me: IP, i: Input): (Pool, Reply) {
    match i.m
    case Discover(eth, wanted) => OnDiscover(p, eth, wanted, i.now)
    case Request(eth, ciaddr, server, wanted) => OnRequest(p, eth, ciaddr, server, wanted, i.now)
    case Release(eth, server) => (if server == me then Remove(p, eth) else p, Silent)
  }

  predicate Releases(i: Input, me: IP, eth: Eth) {
    i.m.Release? && i.m.eth == eth && i.m.server == me
  }

  /**
    One step keeps the allocator's invariant; an acknowledged address is the one the client holds; and only its own
    release takes an address from a client.
   */
  lemma StepKeeps(p: Pool, range: set<IP>, me: IP, i: Input)
    requires Inv(p, range)
    ensures var (q, r) := Step(p, me, i);
            && Inv(q, range)
            && (r.Ack? ==> r.eth == i.m.eth && r.eth in q.ips && q.ips[r.eth] == r.ip && r.ip in range)
            && (forall e :: e in p.ips && !Releases(i, me, e) ==> e in q.ips && q.ips[e] == p.ips[e])
  {
    match i.m
    case Discover(eth, wanted) => DiscoverKeeps(p, range, eth, wanted, i.now);
    case Request(eth, ciaddr, server, wanted) => RequestKeeps(p, range, eth, ciaddr, server, wanted, i.now);
    case Release(eth, server) => RemoveKeepsInv(p, range, eth);
  }

  lemma DiscoverKeeps(p: Pool, range: set<IP>, eth: Eth, wanted: Option<IP>, now: int)
    requires Inv(p, range)
    ensures var (q, r) := OnDiscover(p, eth, wanted, now);
            && Inv(q, range) && !r.Ack?
            && (r.Offer? ==> r.eth == eth && eth in q.ips && q.ips[eth] == r.ip)
            && (r.Silent? ==> eth !in p.ips && p.free == {})
            && forall e :: e in p.ips ==> e in q.ips && q.ips[e] == p.ips[e]
  {
    if wanted.Some? {
      NewLeaseKeepsInv(p, range, eth, wanted.value, now);
    }
    var (q, l) := if wanted.Some? then NewLease(p, eth, wanted.value, now) else (p, None);
    NoLease(q, range, eth);
    NewLeaseAnyExact(q, range, eth, now);
    NoLease(NewLeaseAny(q, eth, now).0, range, eth);
  }

  lemma RequestKeeps(p: Pool, range: set<IP>, eth: Eth, ciaddr: IP, server: IP, wanted: IP, now: int)
    requires Inv(p, range)
    ensures var (q, r) := OnRequest(p, eth, ciaddr, server, wanted, now);
            && Inv(q, range)
            && (r.Ack? ==> r.eth == eth && eth in q.ips && q.ips[eth] == r.ip && r.ip in range)
            && forall e :: e in p.ips ==> e in q.ips && q.ips[e] == p.ips[e]
  {
    NoLease(p, range, eth);
    if eth in p.ips {
      var l := RevLookup(p, eth).value;
      RefreshKeepsInv(p, range, eth, l.(valid := true));
      RefreshKeepsInv(p, range, eth, l.(valid := true, start := now, end := now + now));
      Held(p, range, eth);
    }
    NewLeaseAnyExact(p, range, eth, now);
    var q := NewLeaseAny(p, eth, now).0;
    NoLease(q, range, eth);
    if eth in q.ips {
      Held(q, range, eth);
    }
  }

  lemma Held(p: Pool, range: set<IP>, eth: Eth)
    requires Inv(p, range) && eth in p.ips
    ensures p.ips[eth] in range
  {
    assert EthOk(p, eth);
  }

  // --- Which reply is sent --------------------------------------------------------------------

  /** The client asks for an address but names none. */
  predicate AsksForAny(ciaddr: IP, wanted: IP) {
    ciaddr == 0 && wanted == 0
  }

  predicate IsRenewal(ciaddr: IP, server: IP, wanted: IP) {
    ciaddr != 0 && server == 0 && wanted == 0
  }

  /** The requested address is the one the client holds; `server` may name any server. */
  predicate AsksForOwn(p: Pool, eth: Eth, ciaddr: IP, wanted: IP) {
    ciaddr == 0 && wanted != 0 && eth in p.ips && p.ips[eth] == wanted
  }

  predicate Expired(p: Pool, ip: IP, now: int) {
    ip in p.leases && p.leases[ip].end < now
  }

  /** NAK goes to a rebooting client whose own lease has expired, and to nobody else. */
  lemma NakExactly(p: Pool, range: set<IP>, eth: Eth, ciaddr: IP, server: IP, wanted: IP, now: int)
    requires Inv(p, range)
    ensures var r := OnRequest(p, eth, ciaddr, server, wanted, now).1;
            && (r.Nak? <==> AsksForOwn(p, eth, ciaddr, wanted) && server == 0 && Expired(p, wanted, now))
            && (r.Nak? ==> r.eth == eth)
  {
    NoLease(p, range, eth);
    var k := NewLeaseAnyGives(p, range, eth, now);
  }

  /** Exactly which requests are acknowledged, and with which address. */
  lemma AckExactly(p: Pool, range: set<IP>, eth: Eth, ciaddr: IP, server: IP, wanted: IP, now: int)
    requires Inv(p, range)
    ensures var (q, r) := OnRequest(p, eth, ciaddr, server, wanted, now);
            && (r.Ack? <==>
                || (AsksForAny(ciaddr, wanted) && (eth in p.ips || p.free != {}))
                || (AsksForOwn(p, eth, ciaddr, wanted) && (server != 0 || !Expired(p, wanted, now)))
                || (IsRenewal(ciaddr, server, wanted) && eth in p.ips))
            && (r.Ack? ==> eth in q.ips && r == Ack(eth, q.ips[eth]) && (eth in p.ips ==> r.ip == p.ips[eth]))
            && !r.Offer?
  {
    NoLease(p, range, eth);
    NewLeaseAnyExact(p, range, eth, now);
    NoLease(NewLeaseAny(p, eth, now).0, range, eth);
  }

  /** The lease after an acknowledgement of the address a client holds. */
  function Confirmed(l: Lease, renewal: bool, now: int): Lease {
    Lease(l.eth, l.ip, if renewal then now else l.start, if renewal then now + now else l.end, l.duration, true)
  }

  /** What a request changes: nothing without an ACK; a grant to a new client; else only the client's own lease, now valid. */
  lemma RequestChanges(p: Pool, range: set<IP>, eth: Eth, ciaddr: IP, server: IP, wanted: IP, now: int)
    requires Inv(p, range)
    ensures var (q, r) := OnRequest(p, eth, ciaddr, server, wanted, now);
            if !r.Ack? then q == p || q == p.(freeList := [])
            else if AsksForAny(ciaddr, wanted) then
              if eth in p.ips then q == p else Granted(p, q, eth, r.ip, now)
            else
              && r.ip in p.leases
              && q == p.(leases :=
                   p.leases[r.ip := Confirmed(p.leases[r.ip], IsRenewal(ciaddr, server, wanted), now)])
  {
    NoLease(p, range, eth);
    var k := NewLeaseAnyGives(p, range, eth, now);
    if eth in p.ips {
      assert EthOk(p, eth);
    } else {
      NewLeaseAnyExact(p, range, eth, now);
      NoLease(NewLeaseAny(p, eth, now).0, range, eth);
    }
  }

  /** DISCOVER offers the client's own address, else the wanted one if free, else some free one, else nothing. */
  lemma OfferExactly(p: Pool, range: set<IP>, eth: Eth, wanted: Option<IP>, now: int)
    requires Inv(p, range)
    ensures var (q, r) := OnDiscover(p, eth, wanted, now);
            if eth in p.ips then q == p && r == Offer(eth, p.ips[eth])
            else if wanted.Some? && wanted.value in p.free then
              r == Offer(eth, wanted.value) && Granted(p, q, eth, wanted.value, now)
            else if p.free != {} then
              r.Offer? && r.eth == eth && Granted(p, q, eth, r.ip, now) &&
              exists k: nat :: FirstFree(p, k) && p.freeList[k] == r.ip
            else r == Silent && q == p.(freeList := [])
  {
    NoLease(p, range, eth);
    if wanted.Some? {
      NewLeaseGives(p, range, eth, wanted.value, now);
      NewLeaseKeepsInv(p, range, eth, wanted.value, now);
    }
    NewLeaseAnyExact(p, range, eth, now);
    var k := NewLeaseAnyGives(p, range, eth, now);
    NoLease(NewLeaseAny(p, eth, now).0, range, eth);
    if wanted.Some? {
      NoLease(NewLease(p, eth, wanted.value, now).0, range, eth);
    }
  }

  /** RELEASE frees the address the client holds, if it is addressed to this server, and changes nothing otherwise. */
  lemma ReleaseExactly(p: Pool, range: set<IP>, me: IP, eth: Eth, server: IP, now: int)
    requires Inv(p, range)
    ensures var (q, r) := Step(p, me, Input(Release(eth, server), now));
            && r == Silent
            && if server == me && eth in p.ips then
                 && q.free == p.free + {p.ips[eth]}
                 && q.freeList == p.freeList + [p.ips[eth]]
                 && q.leases == p.leases - {p.ips[eth]}
                 && q.ips == p.ips - {eth}
               else q == p
  {
    NoLease(p, range, eth);
  }

  // --- Whole runs --------------------------------------------------------------------------

  function After(p: Pool, me: IP, ins: seq<Input>): Pool {
    if ins == [] then p else Step(After(p, me, ins[..|ins| - 1]), me, ins[|ins| - 1]).0
  }

  function ReplyAt(p: Pool, me: IP, ins: seq<Input>, n: nat): Reply
    requires n < |ins|
  {
    Step(After(p, me, ins[..n]), me, ins[n]).1
  }

  lemma {:induction false} AfterInv(p: Pool, range: set<IP>, me: IP, ins: seq<Input>)
    requires Inv(p, range)
    ensures Inv(After(p, me, ins), range)
  {
    if ins != [] {
      AfterInv(p, range, me, ins[..|ins| - 1]);
      StepKeeps(After(p, me, ins[..|ins| - 1]), range, me, ins[|ins| - 1]);
    }
  }

  predicate ReleasedBetween(ins: seq<Input>, me: IP, eth: Eth, a: nat, b: nat)
    requires b <= |ins|
  {
    exists k :: a < k < b && Releases(ins[k], me, eth)
  }

  /** What a client is offered or acknowledged is its own. */
  lemma ReplyIsHeld(p: Pool, range: set<IP>, me: IP, i: Input)
    requires Inv(p, range)
    ensures var (q, r) := Step(p, me, i);
            r.Ack? || r.Offer? ==> r.eth == i.m.eth && r.eth in q.ips && q.ips[r.eth] == r.ip
  {
    match i.m
    case Discover(eth, wanted) => DiscoverKeeps(p, range, eth, wanted, i.now);
    case Request(eth, ciaddr, server, wanted) =>
      RequestKeeps(p, range, eth, ciaddr, server, wanted, i.now);
      AckExactly(p, range, eth, ciaddr, server, wanted, i.now);
    case Release(eth, server) =>
  }

  /** A client that was offered or acknowledged an address holds it until it releases it. */
  lemma {:induction false} ReplyHolds(p: Pool, range: set<IP>, me: IP, ins: seq<Input>, a: nat, b: nat)
    requires Inv(p, range) && a < b <= |ins| && (ReplyAt(p, me, ins, a).Ack? || ReplyAt(p, me, ins, a).Offer?)
    requires !ReleasedBetween(ins, me, ReplyAt(p, me, ins, a).eth, a, b)
    ensures var r, q := ReplyAt(p, me, ins, a), After(p, me, ins[..b]);
            Inv(q, range) && r.eth in q.ips && q.ips[r.eth] == r.ip
    decreases b
  {
    AfterInv(p, range, me, ins[..b - 1]);
    AfterOne(p, me, ins, b);
    StepKeeps(After(p, me, ins[..b - 1]), range, me, ins[b - 1]);
    ReplyIsHeld(After(p, me, ins[..b - 1]), range, me, ins[b - 1]);
    if a < b - 1 {
      ReplyHolds(p, range, me, ins, a, b - 1);
      assert !Releases(ins[b - 1], me, ReplyAt(p, me, ins, a).eth);
    }
  }

  lemma InRangeNotZero(p: Pool, range: set<IP>, eth: Eth)
    requires Inv(p, range) && eth in p.ips
    ensures p.ips[eth] != 0
  {
    Held(p, range, eth);
  }

  /** An offer that the client takes up before releasing anything is acknowledged, and its lease is then valid. */
  lemma OfferIsHonoured(start: IP, end: IP, me: IP, ins: seq<Input>, a: nat, b: nat, server: IP)
    requires 0 < start <= end && a < b < |ins| && server != 0
    requires var r := ReplyAt(Fill(start, end), me, ins, a);
             && (r.Offer? || r.Ack?)
             && !ReleasedBetween(ins, me, r.eth, a, b)
             && ins[b].m == Request(r.eth, 0, server, r.ip)
    ensures var (p, r) := (Fill(start, end), ReplyAt(Fill(start, end), me, ins, a));
            && ReplyAt(p, me, ins, b) == Ack(r.eth, r.ip)
            && var q := After(p, me, ins[..b + 1]); r.ip in q.leases && q.leases[r.ip].valid
  {
    var p, range := Fill(start, end), Addresses(start, end);
    FillInv(start, end);
    ReplyHolds(p, range, me, ins, a, b);
    var (r, q) := (ReplyAt(p, me, ins, a), After(p, me, ins[..b]));
    InRangeNotZero(q, range, r.eth);
    AckExactly(q, range, r.eth, 0, server, r.ip, ins[b].now);
    RequestChanges(q, range, r.eth, 0, server, r.ip, ins[b].now);
    AfterOne(p, me, ins, b + 1);
  }

  /** So is a renewal, whatever address it names, and the lease then starts anew. */
  lemma RenewalIsHonoured(start: IP, end: IP, me: IP, ins: seq<Input>, a: nat, b: nat, ciaddr: IP)
    requires 0 < start <= end && a < b < |ins| && ciaddr != 0
    requires var r := ReplyAt(Fill(start, end), me, ins, a);
             && (r.Offer? || r.Ack?)
             && !ReleasedBetween(ins, me, r.eth, a, b)
             && ins[b].m == Request(r.eth, ciaddr, 0, 0)
    ensures var (p, r) := (Fill(start, end), ReplyAt(Fill(start, end), me, ins, a));
            && ReplyAt(p, me, ins, b) == Ack(r.eth, r.ip)
            && var q := After(p, me, ins[..b + 1]);
               r.ip in q.leases && q.leases[r.ip].valid && q.leases[r.ip].start == ins[b].now
  {
    var p, range := Fill(start, end), Addresses(start, end);
    FillInv(start, end);
    ReplyHolds(p, range, me, ins, a, b);
    var (r, q) := (ReplyAt(p, me, ins, a), After(p, me, ins[..b]));
    AckExactly(q, range, r.eth, ciaddr, 0, 0, ins[b].now);
    RequestChanges(q, range, r.eth, ciaddr, 0, 0, ins[b].now);
    AfterOne(p, me, ins, b + 1);
  }

  /** An acknowledged client holds its address until it releases it. */
  lemma AckHolds(p: Pool, range: set<IP>, me: IP, ins: seq<Input>, a: nat, b: nat)
    requires Inv(p, range) && a < b <= |ins| && ReplyAt(p, me, ins, a).Ack?
    requires !ReleasedBetween(ins, me, ReplyAt(p, me, ins, a).eth, a, b)
    ensures var r, q := ReplyAt(p, me, ins, a), After(p, me, ins[..b]);
            Inv(q, range) && r.eth in q.ips && q.ips[r.eth] == r.ip
  {
    ReplyHolds(p, range, me, ins, a, b);
  }

  lemma AfterOne(p: Pool, me: IP, ins: seq<Input>, b: nat)
    requires 0 < b <= |ins|
    ensures After(p, me, ins[..b]) == Step(After(p, me, ins[..b - 1]), me, ins[b - 1]).0
  {
    assert ins[..b][..b - 1] == ins[..b - 1];
  }

  /**
    Over every run: two clients are never acknowledged the same address unless the first released in between, and one
    client is acknowledged one address until it releases.
   */
  lemma AcksAreExclusive(start: IP, end: IP, me: IP, ins: seq<Input>, a: nat, b: nat)
    requires 0 < start <= end && a < b < |ins|
    requires var p := Fill(start, end); ReplyAt(p, me, ins, a).Ack? && ReplyAt(p, me, ins, b).Ack?
    ensures var p := Fill(start, end);
            var r, s := ReplyAt(p, me, ins, a), ReplyAt(p, me, ins, b);
            !ReleasedBetween(ins, me, r.eth, a, b) ==> (r.ip == s.ip <==> r.eth == s.eth)
  {
    var p, range := Fill(start, end), Addresses(start, end);
    FillInv(start, end);
    var r, s := ReplyAt(p, me, ins, a), ReplyAt(p, me, ins, b);
    if !ReleasedBetween(ins, me, r.eth, a, b) {
      AckHolds(p, range, me, ins, a, b);
      var q := After(p, me, ins[..b]);
      StepKeeps(q, range, me, ins[b]);
      var t := Step(q, me, ins[b]).0;
      assert EthOk(t, r.eth) && EthOk(t, s.eth);
    }
  }

  // --- The objects ---------------------------------------------------------------------------

  class Server {
    const me: IP
    ghost const range: set<IP>
    var free: set<IP>
    var freeList: seq<IP>
    var leases: map<IP, Lease>
    var ips: map<Eth, IP>

    ghost function Now(): Pool
      reads this
    {
      Pool(free, freeList, leases, ips)
    }

    ghost predicate Ok()
      reads this
    {
      Inv(Now(), range)
    }

    /** The fill loop of `configure`; it ends because END is below the largest address. */
    constructor (me: IP, start: IP, end: IP)
      requires 0 < start <= end < 0xFFFF_FFFF
      ensures Now() == Fill(start, end) && Ok() && this.me == me && range == Addresses(start, end)
    {
      this.me := me;
      range := Addresses(start, end);
      leases, ips := map[], map[];
      var table: set<IP>, list: seq<IP> := {}, [];
      var x: IP := start;
      while x <= end
        invariant start <= x <= end + 1
        invariant x <= end ==> list + Range(x, end) == Range(start, end)
        invariant x == end + 1 ==> list == Range(start, end)
        invariant table == set y | y in list
        decreases end + 1 - x
      {
        assert x < end ==> Range(x, end) == [x] + Range(x + 1, end);
        assert x < end ==> list + Range(x, end) == (list + [x]) + Range(x + 1, end);
        table := table + {x};
        list := list + [x];
        x := x + 1;
      }
      free, freeList := table, list;
      FillInv(start, end);
    }

    /** A lease found by address is the one its client holds; none is found exactly when no client holds the address. */
    method LookupIp(ip: IP) returns (l: Option<Lease>)
      ensures l == Lookup(Now(), ip)
      ensures Ok() && l.Some? ==> l.value.ip == ip && RevLookup(Now(), l.value.eth) == l
      ensures Ok() && l.None? ==> forall e :: e in ips ==> ips[e] != ip
    {
      if Ok() {
        FoundByIp(Now(), range, ip);
      }
      l := if ip in leases then Some(leases[ip]) else None;
    }

    /** A lease found by client is the one recorded for its address; none is found exactly when no address is the client's. */
    method LookupEth(eth: Eth) returns (l: Option<Lease>)
      ensures l == RevLookup(Now(), eth)
      ensures Ok() && l.Some? ==> l.value.eth == eth && Lookup(Now(), l.value.ip) == l
      ensures Ok() && l.None? ==> forall ip :: ip in leases ==> leases[ip].eth != eth
    {
      if Ok() {
        FoundByEth(Now(), range, eth);
      }
      if eth in ips {
        l := LookupIp(ips[eth]);
      } else {
        l := None;
      }
    }

    /** Leasing a free address to a client without one keeps the invariant and every other lease. */
    method InsertLease(l: Lease)
      modifies this
      ensures Now() == Insert(old(Now()), l)
      ensures old(Ok() && l.ip in free && l.eth !in ips) ==>
                Ok() && RevLookup(Now(), l.eth) == Some(l) && Lookup(Now(), l.ip) == Some(l)
      ensures forall e :: e in old(ips) && e != l.eth ==> e in ips && ips[e] == old(ips)[e]
    {
      if Ok() && l.ip in free && l.eth !in ips {
        InsertKeepsInv(Now(), range, l, Insert(Now(), l));
      }
      free := free - {l.ip};
      ips := ips[l.eth := l.ip];
      leases := leases[l.ip := l];
    }

    /** The client's lease afterwards; it is refused exactly when it had none and the address is not free. */
    method MakeLease(eth: Eth, ip: IP, now: int) returns (r: Option<Lease>)
      modifies this
      ensures (Now(), r) == NewLease(old(Now()), eth, ip, now)
      ensures old(Ok()) ==> Ok() && r == RevLookup(Now(), eth) && (r.None? <==> eth !in old(ips) && ip !in old(free))
      ensures old(Ok()) ==> forall e :: e in old(ips) ==> e in ips && ips[e] == old(ips)[e]
    {
      if Ok() {
        NewLeaseKeepsInv(Now(), range, eth, ip, now);
      }
      r := LookupEth(eth);
      if r.Some? {
        return;
      }
      var got := if ip in free then ip else 0;
      if got != 0 {
        InsertLease(Lease(eth, ip, now, now + 60, now + 60 - now, false));
        r := LookupIp(ip);
        return;
      }
      r := None;
    }

    method MakeLeaseAny(eth: Eth, now: int) returns (r: Option<Lease>)
      requires Ok()
      modifies this
      ensures Ok() && (Now(), r) == NewLeaseAny(old(Now()), eth, now)
    {
      NewLeaseAnyExact(Now(), range, eth, now);
      r := LookupEth(eth);
      if r.Some? {
        return;
      }
      while freeList != []
        invariant RevLookup(Now(), eth).None?
        invariant Draw(Now(), eth, now) == Draw(old(Now()), eth, now)
        decreases |freeList|
      {
        var next := freeList[0];
        freeList := freeList[1..];
        if next in free {
          r := MakeLease(eth, next, now);
          return;
        }
      }
      r := None;
    }

    method RemoveLease(eth: Eth)
      requires Ok()
      modifies this
      ensures Ok() && Now() == Remove(old(Now()), eth)
    {
      RemoveKeepsInv(Now(), range, eth);
      NoLease(Now(), range, eth);
      var l := LookupEth(eth);
      if l.Some? {
        free := free + {l.value.ip};
        freeList := freeList + [l.value.ip];
      }
      l := LookupEth(eth);
      if l.Some? {
        var ip := l.value.ip;
        leases := leases - {ip};
        ips := ips - {eth};
      }
    }

    method HandleDiscover(eth: Eth, wanted: Option<IP>, now: int) returns (r: Reply)
      requires Ok()
      modifies this
      ensures Ok() && (Now(), r) == OnDiscover(old(Now()), eth, wanted, now)
    {
      DiscoverKeeps(Now(), range, eth, wanted, now);
      var l := None;
      if wanted.Some? {
        NewLeaseKeepsInv(Now(), range, eth, wanted.value, now);
        l := MakeLease(eth, wanted.value, now);
      }
      if l.None? {
        l := MakeLeaseAny(eth, now);
      }
      r := if l.Some? then Offer(eth, l.value.ip) else Silent;
    }

    method HandleRequest(eth: Eth, ciaddr: IP, server: IP, wanted: IP, now: int) returns (r: Reply)
      requires Ok()
      modifies this
      ensures Ok() && (Now(), r) == OnRequest(old(Now()), eth, ciaddr, server, wanted, now)
    {
      RequestKeeps(Now(), range, eth, ciaddr, server, wanted, now);
      r := Silent;
      var lease := LookupEth(eth);
      if ciaddr == 0 && wanted == 0 {
        if lease.None? {
          lease := MakeLeaseAny(eth, now);
        }
        if lease.Some? {
          r := Ack(eth, lease.value.ip);
        }
      } else if server != 0 && ciaddr == 0 && wanted != 0 {
        if lease.Some? && lease.value.ip == wanted {
          r := Ack(eth, lease.value.ip);
          leases := leases[lease.value.ip := lease.value.(valid := true)];
        }
      } else if server == 0 && wanted != 0 && ciaddr == 0 {
        if lease.Some? && lease.value.ip == wanted {
          if lease.value.end < now {
            r := Nak(eth);
          } else {
            leases := leases[lease.value.ip := lease.value.(valid := true)];
            r := Ack(eth, lease.value.ip);
          }
        }
      } else if server == 0 && wanted == 0 && ciaddr != 0 {
        if lease.Some? {
          leases := leases[lease.value.ip := lease.value.(valid := true, start := now, end := now + now)];
          r := Ack(eth, lease.value.ip);
        }
      }
    }

    method HandleRelease(eth: Eth, server: IP)
      requires Ok()
      modifies this
      ensures Ok() && Now() == Step(old(Now()), me, Input(Release(eth, server), 0)).0
    {
      if server != me {
        return;
      }
      RemoveLease(eth);
    }
  }
}
