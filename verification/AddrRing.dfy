/**
 * The resolver's table of host names and addresses: 32 slots, filled in order and
 * then overwritten in turn, behind a resolver that consults it before asking DNS.
 */
module AddrRing {
  import opened Wrappers
  import opened Sequences
  import opened Bytes

  const SIZE := 32
  const HOST_MAX := 255

  datatype Pair = Pair(host: Data, addr: nat)

  /** What fits a slot's name buffer. */
  function Trunc(host: Data): (r: Data)
    ensures |host| <= HOST_MAX ==> r == host
    ensures |host| > HOST_MAX ==> |r| == HOST_MAX && r <= host
  {
    if |host| <= HOST_MAX then host else host[..HOST_MAX]
  }

  // ---- The queue the table stands for ----

  /** Oldest first. */
  type Fifo = seq<Pair>

  function Push(f: Fifo, p: Pair): (r: Fifo)
    ensures |r| == if |f| < SIZE then |f| + 1 else |f|
  {
    (if |f| < SIZE then f else f[1..]) + [p]
  }

  /** Names the table never takes: none at all, or a numeric address. */
  predicate Refused(host: Data, addr: nat, numeric: bool) {
    host == [] || addr == 0 || numeric
  }

  function Stored(f: Fifo, host: Data, addr: nat, numeric: bool): Fifo {
    if Refused(host, addr, numeric) || Pair(host, addr) in f then f else Push(f, Pair(Trunc(host), addr))
  }

  /** The last `n` of a history. */
  function Last(h: seq<Pair>, n: nat): seq<Pair> {
    if |h| <= n then h else h[|h| - n..]
  }

  lemma LastPush(h: seq<Pair>, p: Pair)
    ensures Last(h + [p], SIZE) == Push(Last(h, SIZE), p)
  {
  }

  /** The queue that slots, count and cursor represent. */
  function Queue(slots: seq<Pair>, count: nat, cursor: nat): Fifo
    requires |slots| == SIZE && count <= SIZE && cursor < SIZE
  {
    if count < SIZE then slots[..count] else slots[cursor..] + slots[..cursor]
  }

  lemma QueueFill(slots: seq<Pair>, count: nat, p: Pair)
    requires |slots| == SIZE && count < SIZE
    ensures Queue(slots[count := p], count + 1, 0) == Push(Queue(slots, count, 0), p)
  {
  }

  lemma QueueOverwrite(slots: seq<Pair>, cursor: nat, p: Pair)
    requires |slots| == SIZE && cursor < SIZE
    ensures Queue(slots[cursor := p], SIZE, (cursor + 1) % SIZE) == Push(Queue(slots, SIZE, cursor), p)
  {
    var q, q' := Queue(slots, SIZE, cursor), Queue(slots[cursor := p], SIZE, (cursor + 1) % SIZE);
    assert |q| == SIZE && |q'| == SIZE;
    forall i | 0 <= i < SIZE ensures q'[i] == Push(q, p)[i] {
      if cursor + 1 < SIZE {
        var now, wrap := slots[cursor := p], SIZE - cursor - 1;
        assert q'[i] == if i < wrap then now[cursor + 1 + i] else now[i - wrap];
      }
    }
  }

  lemma QueueMembers(slots: seq<Pair>, count: nat, cursor: nat, p: Pair)
    requires |slots| == SIZE && count <= SIZE && cursor < SIZE
    ensures p in Queue(slots, count, cursor) <==> exists i :: 0 <= i < count && slots[i] == p
  {
    var q := Queue(slots, count, cursor);
    if p in q {
      var j :| 0 <= j < |q| && q[j] == p;
      if count == SIZE { assert slots[(cursor + j) % SIZE] == p; } else { assert slots[j] == p; }
    }
    if i :| 0 <= i < count && slots[i] == p {
      if count == SIZE {
        assert q[if i < cursor then SIZE - cursor + i else i - cursor] == p;
      } else {
        assert q[i] == p;
      }
    }
  }

  // ---- Laws of the queue ----

  /** What stays when a pair is pushed. */
  function Kept(f: Fifo): Fifo { if |f| < SIZE then f else f[1..] }

  /**
   * The table stays free of repeated pairs exactly when the name fits a slot, or
   * its cut form with that address is not in the part that stays.
   */
  lemma StoreRepeats(f: Fifo, host: Data, addr: nat, numeric: bool)
    requires |f| <= SIZE && Distinct(f)
    ensures Distinct(Stored(f, host, addr, numeric)) <==>
            Refused(host, addr, numeric) || |host| <= HOST_MAX || Pair(host, addr) in f
            || Pair(Trunc(host), addr) !in Kept(f)
  {
    hide Trunc;
    var k, p := Kept(f), Pair(Trunc(host), addr);
    var g := k + [p];
    assert forall q :: q in k ==> q in f;
    if p in k {
      var i :| 0 <= i < |k| && k[i] == p;
      assert g[i] == g[|k|];
    }
  }

  /** Every name at most once. */
  ghost predicate HostsOnce(f: Fifo) {
    forall i, j :: 0 <= i < j < |f| ==> f[i].host != f[j].host
  }

  predicate HasHost(f: Fifo, host: Data) {
    exists i :: 0 <= i < |f| && f[i].host == host
  }

  lemma PushHosts(f: Fifo, p: Pair)
    requires |f| <= SIZE && HostsOnce(f)
    ensures HostsOnce(Push(f, p)) <==> !HasHost(Kept(f), p.host)
  {
    var k := Kept(f);
    var g := k + [p];
    if HasHost(k, p.host) {
      var i :| 0 <= i < |k| && k[i].host == p.host;
      assert g[i].host == g[|k|].host;
    } else {
      forall i, j | 0 <= i < j < |g| ensures g[i].host != g[j].host {
        if j == |k| { assert k[i].host != p.host; }
      }
    }
  }

  // ---- The resolver ----

  const LOCALHOST: Data := [108, 111, 99, 97, 108, 104, 111, 115, 116]
  const LOOPBACK := 0x0100_007f

  /** The name, and 127.0.0.1 in network order as a little-endian word. */
  lemma LocalhostIs()
    ensures |LOCALHOST| == 9 && forall i :: 0 <= i < 9 ==> LOCALHOST[i] == "localhost"[i] as int
    ensures LOOPBACK == 127 + 0x100 * (0 + 0x100 * (0 + 0x100 * 1))
  {
  }

  /** A name to look up, the address it spells if it is numeric, and what DNS would answer (0 for a failure). */
  datatype Query = Query(host: Data, numeric: Option<nat>, dns: nat)

  /** The table after yurt_netdb_addr_for_host. */
  function AfterLookup(f: Fifo, q: Query): Fifo {
    if q.host == LOCALHOST then Stored(f, q.host, LOOPBACK, q.numeric.Some?)
    else if HasHost(f, q.host) then f
    else Stored(f, q.host, q.dns, q.numeric.Some?)
  }

  ghost predicate TableOk(f: Fifo) {
    |f| <= SIZE && HostsOnce(f) && forall i :: 0 <= i < |f| ==> (f[i].host == LOCALHOST ==> f[i].addr == LOOPBACK)
  }

  ghost predicate EntriesOk(f: Fifo) {
    forall i :: 0 <= i < |f| ==> f[i].addr != 0 && 0 < |f[i].host| <= HOST_MAX
  }

  /** Whether a lookup stores nothing: the name is absent, numeric or known, or DNS fails. */
  predicate NothingToStore(f: Fifo, q: Query) {
    q.host == [] || q.numeric.Some? || HasHost(f, q.host) || (q.host != LOCALHOST && q.dns == 0)
  }

  /**
   * Because every store goes through the resolver, which consults the table
   * first, a name that fits a slot never takes two. A longer name keeps the table
   * in order exactly when there is nothing to store, or no entry that stays has
   * its cut form as name.
   */
  lemma LookupKeepsHostsOnce(f: Fifo, q: Query)
    requires TableOk(f)
    ensures TableOk(AfterLookup(f, q)) <==>
            |q.host| <= HOST_MAX || NothingToStore(f, q) || !HasHost(Kept(f), Trunc(q.host))
    ensures NothingToStore(f, q) ==> AfterLookup(f, q) == f
  {
    if NothingToStore(f, q) {
      KnownStays(f, q);
    } else {
      var addr := if q.host == LOCALHOST then LOOPBACK else q.dns;
      var p := Pair(Trunc(q.host), addr);
      PushHosts(f, p);
      assert Pair(q.host, addr) !in f;
      assert AfterLookup(f, q) == Push(f, p);
      hide HostsOnce;
      if |q.host| <= HOST_MAX { KeptHosts(f, q.host); }
    }
  }

  /**
   * A name that fits and resolves is the newest entry afterwards, with its address,
   * and only the oldest entry of a full table had to go; so the next lookup of it
   * changes nothing.
   */
  lemma LookupRemembers(f: Fifo, q: Query, again: Query)
    requires |f| <= SIZE && 0 < |q.host| <= HOST_MAX && q.numeric.None? && !HasHost(f, q.host)
    requires q.host == LOCALHOST || q.dns != 0
    ensures AfterOp(f, Lookup(q)) == AfterOp(f, AddrInfo(q, false)) == AfterLookup(f, q)
    ensures AfterLookup(f, q) ==
            (if |f| < 32 then f else f[1..]) + [Pair(q.host, if q.host == LOCALHOST then 0x0100_007f else q.dns)]
    ensures HasHost(AfterLookup(f, q), q.host)
    ensures again.host == q.host ==> AfterLookup(AfterLookup(f, q), again) == AfterLookup(f, q)
  {
    var p := Pair(q.host, if q.host == LOCALHOST then LOOPBACK else q.dns);
    assert p !in f;
    var g := AfterLookup(f, q);
    assert g[|g| - 1] == p;
  }

  lemma KnownStays(f: Fifo, q: Query)
    requires TableOk(f) && NothingToStore(f, q)
    ensures AfterLookup(f, q) == f
  {
    if q.host == LOCALHOST && HasHost(f, q.host) {
      var i :| 0 <= i < |f| && f[i].host == q.host;
      assert f[i] == Pair(LOCALHOST, LOOPBACK);
    }
  }

  lemma KeptHosts(f: Fifo, host: Data)
    ensures HasHost(Kept(f), host) ==> HasHost(f, host)
  {
    var k := Kept(f);
    if HasHost(k, host) {
      var i :| 0 <= i < |k| && k[i].host == host;
      assert k[i] in f;
    }
  }

  /** The ways a program reaches the table. */
  datatype Op = Lookup(q: Query) | AddrInfo(q: Query, numericOnly: bool)

  /** getaddrinfo stores once more what it resolved. */
  function AfterOp(f: Fifo, op: Op): Fifo {
    match op
    case Lookup(q) => if q.host == [] then f else AfterLookup(f, q)
    case AddrInfo(q, numericOnly) =>
      if q.host == [] || q.numeric.Some? || (numericOnly && q.host != LOCALHOST) then f
      else if |q.host| <= HOST_MAX then AfterLookup(f, q)
      else Stored(AfterLookup(f, q), q.host, q.dns, false)
  }

  function AfterAll(f: Fifo, ops: seq<Op>): Fifo {
    if ops == [] then f else AfterOp(AfterAll(f, ops[..|ops| - 1]), ops[|ops| - 1])
  }

  /** After any sequence of resolutions of names that fit, every name has at most one slot. */
  lemma {:induction false} RunKeepsHostsOnce(ops: seq<Op>)
    requires forall i :: 0 <= i < |ops| ==> |ops[i].q.host| <= HOST_MAX
    ensures TableOk(AfterAll([], ops))
  {
    hide TableOk, AfterLookup;
    if ops == [] {
      NothingOk();
    } else {
      var n := |ops| - 1;
      RunKeepsHostsOnce(ops[..n]);
      LookupKeepsHostsOnce(AfterAll([], ops[..n]), ops[n].q);
    }
  }

  lemma NothingOk()
    ensures TableOk([])
  {
  }

  lemma PushEntriesOk(f: Fifo, p: Pair)
    requires EntriesOk(f) && p.addr != 0 && 0 < |p.host| <= HOST_MAX
    ensures EntriesOk(Push(f, p))
  {
  }

  // ---- The table in place ----

  class AddrMap {
    const slots: array<Pair>
    var count: nat
    var cursor: nat
    ghost var accepted: seq<Pair>

    ghost predicate Valid()
      reads this, slots
    {
      && slots.Length == SIZE && count <= SIZE && cursor < SIZE && (count < SIZE ==> cursor == 0)
      && Contents() == Last(accepted, SIZE) && EntriesOk(Contents())
    }

    ghost function Contents(): Fifo
      requires slots.Length == SIZE && count <= SIZE && cursor < SIZE
      reads this, slots
    {
      Queue(slots[..], count, cursor)
    }

    constructor ()
      ensures Valid() && fresh(slots) && accepted == [] && Contents() == []
    {
      slots := new Pair[SIZE](_ => Pair([], 0));
      count, cursor, accepted := 0, 0, [];
    }

    /** The pair is stored unless it is refused or present, and then the table holds the last 32 accepted. */
    method Store(host: Data, addr: nat, numeric: bool)
      requires Valid()
      modifies this, slots
      ensures Valid() && Contents() == Stored(old(Contents()), host, addr, numeric)
      ensures accepted == if Refused(host, addr, numeric) || Pair(host, addr) in old(Contents()) then old(accepted)
                          else old(accepted) + [Pair(Trunc(host), addr)]
    {
      hide Queue, Push, Last;
      if host == [] || addr == 0 {
        return;
      }
      if numeric {
        return;
      }
      QueueMembers(slots[..], count, cursor, Pair(host, addr));
      for i := 0 to count
        invariant forall j :: 0 <= j < i ==> slots[j] != Pair(host, addr)
      {
        if slots[i].addr == addr && slots[i].host == host {
          assert slots[..][i] == Pair(host, addr);
          return;
        }
      }
      ghost var was := slots[..];
      var p := Pair(Trunc(host), addr);
      LastPush(accepted, p);
      PushEntriesOk(Contents(), p);
      if count < SIZE {
        QueueFill(was, count, p);
        slots[count] := p;
        assert slots[..] == was[count := p];
        count := count + 1;
      } else {
        QueueOverwrite(was, cursor, p);
        slots[cursor] := p;
        assert slots[..] == was[cursor := p];
        cursor := (cursor + 1) % SIZE;
      }
      accepted := accepted + [p];
    }

    /** The address in the lowest slot with the name, 0 when the table does not have it. */
    method LookupHost(host: Data) returns (addr: nat)
      requires Valid()
      ensures addr != 0 <==> HasHost(Contents(), host)
      ensures addr != 0 ==> Pair(host, addr) in Contents()
      ensures addr != 0 ==>
                exists i :: 0 <= i < count && slots[i] == Pair(host, addr) &&
                    forall j :: 0 <= j < i ==> slots[j].host != host
      ensures HostsOnce(Contents()) && addr != 0 ==> forall p :: p in Contents() && p.host == host ==> p.addr == addr
    {
      hide Queue, Last;
      ghost var f := Contents();
      if host == [] {
        return 0;
      }
      for i := 0 to count
        invariant forall j :: 0 <= j < i ==> slots[j].host != host
      {
        if slots[i].host == host {
          QueueMembers(slots[..], count, cursor, slots[i]);
          assert slots[..][i] in f;
          return slots[i].addr;
        }
      }
      forall k | 0 <= k < |f| ensures f[k].host != host { QueueMembers(slots[..], count, cursor, f[k]); }
      return 0;
    }

    /** The name in the lowest slot with this address, if the table has one. */
    method LookupAddr(addr: nat) returns (host: Option<Data>)
      requires Valid()
      ensures host.Some? ==> Pair(host.value, addr) in Contents()
      ensures host.Some? ==>
                exists i :: 0 <= i < count && slots[i] == Pair(host.value, addr) &&
                    forall j :: 0 <= j < i ==> slots[j].addr != addr
      ensures host.None? ==> forall p :: p in Contents() ==> p.addr != addr
    {
      hide Queue, Last;
      for i := 0 to count
        invariant forall j :: 0 <= j < i ==> slots[j].addr != addr
      {
        if slots[i].addr == addr {
          QueueMembers(slots[..], count, cursor, slots[i]);
          assert slots[..][i] in Contents();
          return Some(slots[i].host);
        }
      }
      forall p | p in Contents() ensures p.addr != addr { QueueMembers(slots[..], count, cursor, p); }
      return None;
    }

    /** yurt_netdb_addr_for_host: DNS is asked only for a name the table does not have. */
    method AddrForHost(q: Query) returns (addr: nat, asked: bool)
      requires Valid()
      modifies this, slots
      ensures Valid()
      ensures Contents() == AfterOp(old(Contents()), Lookup(q))
      ensures q.host == [] ==> addr == 0
      ensures asked <==> q.host != [] && q.host != LOCALHOST && !HasHost(old(Contents()), q.host)
      ensures q.host == LOCALHOST ==> addr == LOOPBACK
      ensures asked ==> addr == q.dns
      ensures asked && addr != 0 && |q.host| <= HOST_MAX && q.numeric.None? ==> HasHost(Contents(), q.host)
      ensures !asked && q.host != [] && q.host != LOCALHOST ==> Pair(q.host, addr) in Contents()
    {
      if q.host != [] && q.host != LOCALHOST && !HasHost(Contents(), q.host) && q.dns != 0 && |q.host| <= HOST_MAX
        && q.numeric.None? {
        LookupRemembers(Contents(), q, q);
      }
      hide Queue, Last, Stored, HasHost;
      if q.host == [] {
        return 0, false;
      }
      if q.host == LOCALHOST {
        Store(q.host, LOOPBACK, q.numeric.Some?);
        return LOOPBACK, false;
      }
      var cached := LookupHost(q.host);
      if cached != 0 {
        return cached, false;
      }
      Store(q.host, q.dns, q.numeric.Some?);
      return q.dns, true;
    }

    /**
     * gethostbyname and getaddrinfo: resolve, then store once more. For a name that
     * fits, the second store finds the pair; a longer one is stored twice.
     */
    method GetAddrInfo(q: Query, numericOnly: bool, passive: bool) returns (ok: bool, addr: nat)
      requires Valid()
      modifies this, slots
      ensures Valid() && Contents() == AfterOp(old(Contents()), AddrInfo(q, numericOnly))
      ensures q.host == [] ==> ok && addr == if passive then 0 else LOOPBACK
      ensures q.host != [] && q.numeric.Some? ==> ok && addr == q.numeric.value
      ensures q.host == LOCALHOST && q.numeric.None? ==> ok && addr == LOOPBACK
      ensures q.host != [] && q.numeric.None? && q.host != LOCALHOST ==>
                && (ok <==> !numericOnly && (HasHost(old(Contents()), q.host) || q.dns != 0))
                && (ok && HasHost(old(Contents()), q.host) ==> Pair(q.host, addr) in old(Contents()))
                && (ok && !HasHost(old(Contents()), q.host) ==> addr == q.dns)
    {
      hide Queue, Last, HasHost, Push;
      if q.host == [] {
        return true, if passive then 0 else LOOPBACK;
      }
      if q.numeric.Some? {
        Store(q.host, q.numeric.value, true);
        return true, q.numeric.value;
      }
      if q.host == LOCALHOST {
        Store(q.host, LOOPBACK, false);
        return true, LOOPBACK;
      }
      if numericOnly {
        return false, 0;
      }
      ghost var f := Contents();
      var resolved, asked := AddrForHost(q);
      if resolved == 0 {
        StoredIsNonzero(f, q.host);
        return false, 0;
      }
      if |q.host| > HOST_MAX {
        LongIsAbsent(f, q.host);
      } else if asked {
        PairStored(f, q);
      }
      Store(q.host, resolved, false);
      return true, resolved;
    }
  }

  lemma StoredIsNonzero(f: Fifo, host: Data)
    requires EntriesOk(f)
    ensures Pair(host, 0) !in f
  {
  }

  lemma LongIsAbsent(f: Fifo, host: Data)
    requires EntriesOk(f) && |host| > HOST_MAX
    ensures !HasHost(f, host)
  {
  }

  /** A name that fits is in the table once it is stored. */
  lemma PairStored(f: Fifo, q: Query)
    requires q.host != [] && q.dns != 0 && |q.host| <= HOST_MAX
    ensures Pair(q.host, q.dns) in Stored(f, q.host, q.dns, false)
  {
  }

  /** One resolution of any longer name leaves its pair in the table twice. */
  lemma LongNameTwice(f: Fifo, q: Query)
    requires |f| <= SIZE && EntriesOk(f) && |q.host| > HOST_MAX && q.dns != 0 && q.numeric.None?
    ensures var f' := AfterOp(f, AddrInfo(q, false));
            var n := |f'|; n >= 2 && f'[n - 1] == f'[n - 2] && !Distinct(f')
  {
    LongIsAbsent(f, q.host);
    var p, g := Pair(Trunc(q.host), q.dns), AfterLookup(f, q);
    assert g == Push(f, p) && g[|g| - 1] == p;
    assert EntriesOk(g);
    assert Pair(q.host, q.dns) !in g by { LongIsAbsent(g, q.host); }
    var f' := Push(g, p);
    assert f'[|f'| - 1] == p && f'[|f'| - 2] == p;
  }
}
