/**
 * fd_write and fd_read: the bytes of a list of guest buffers gathered into one
 * request, and one response scattered over such a list.
 */
module Iovecs {
  import opened Bytes
  import opened Memory

  datatype Iov = Iov(ptr: nat, len: nat)

  predicate InBounds(m: Data, iovs: seq<Iov>) {
    forall i :: 0 <= i < |iovs| ==> iovs[i].ptr + iovs[i].len <= |m|
  }

  predicate Apart(a: Iov, b: Iov) {
    a.ptr + a.len <= b.ptr || b.ptr + b.len <= a.ptr
  }

  predicate AllApart(a: Iov, iovs: seq<Iov>) {
    forall i :: 0 <= i < |iovs| ==> Apart(a, iovs[i])
  }

  predicate Disjoint(iovs: seq<Iov>) {
    forall i, j :: 0 <= i < j < |iovs| ==> Apart(iovs[i], iovs[j])
  }

  function Capacity(iovs: seq<Iov>): nat {
    if iovs == [] then 0 else iovs[0].len + Capacity(iovs[1..])
  }

  /** The table of pointer and length pairs at `at`. */
  function TableAt(m: Data, at: nat, n: nat): seq<Iov>
    requires at + 8 * n <= |m|
    decreases n
  {
    if n == 0 then [] else [Iov(U32(m, at), U32(m, at + 4))] + TableAt(m, at + 8, n - 1)
  }

  /** The guest's side of the table: the address of each buffer, then its length. */
  function PackedTable(iovs: seq<Iov>): (r: Data)
    requires forall i :: 0 <= i < |iovs| ==> iovs[i].ptr < U32_LIMIT && iovs[i].len < U32_LIMIT
    ensures |r| == 8 * |iovs|
  {
    if iovs == [] then [] else Le32(iovs[0].ptr) + Le32(iovs[0].len) + PackedTable(iovs[1..])
  }

  /** The host reads the table the guest wrote. */
  lemma {:induction false} TableReadsBack(m: Data, at: nat, iovs: seq<Iov>)
    requires forall i :: 0 <= i < |iovs| ==> iovs[i].ptr < U32_LIMIT && iovs[i].len < U32_LIMIT
    requires Has(m, at, PackedTable(iovs))
    ensures TableAt(m, at, |iovs|) == iovs
    decreases |iovs|
  {
    hide Le32, U32, Has;
    HasFits(m, at, PackedTable(iovs));
    if iovs == [] {
    } else {
      var ptr, len, rest := Le32(iovs[0].ptr), Le32(iovs[0].len), PackedTable(iovs[1..]);
      HasSplit(m, at, ptr + len, rest);
      HasSplit(m, at, ptr, len);
      U32OfLe32(m, at, iovs[0].ptr);
      U32OfLe32(m, at + 4, iovs[0].len);
      TableReadsBack(m, at + 8, iovs[1..]);
    }
  }

  lemma HasFits(m: Data, at: nat, data: Data)
    requires Has(m, at, data)
    ensures at + |data| <= |m|
  {
  }

  /** The bytes of the buffers, one after the other. */
  function Gather(m: Data, iovs: seq<Iov>): (r: Data)
    requires InBounds(m, iovs)
    ensures |r| == Capacity(iovs)
  {
    if iovs == [] then [] else m[iovs[0].ptr..iovs[0].ptr + iovs[0].len] + Gather(m, iovs[1..])
  }

  function Min(a: nat, b: nat): nat { if a <= b then a else b }

  /** What `n` bytes fill of the buffers lies in memory; buffers behind that may lie anywhere. */
  predicate RoomFor(size: nat, iovs: seq<Iov>, n: nat)
    decreases |iovs|
  {
    iovs == [] || n == 0 ||
    (iovs[0].ptr + Min(n, iovs[0].len) <= size && RoomFor(size, iovs[1..], n - Min(n, iovs[0].len)))
  }

  lemma {:induction false} InBoundsHasRoom(m: Data, iovs: seq<Iov>, n: nat)
    requires InBounds(m, iovs)
    ensures RoomFor(|m|, iovs, n)
    decreases |iovs|
  {
    if iovs == [] || n == 0 {
    } else {
      InBoundsHasRoom(m, iovs[1..], n - Min(n, iovs[0].len));
    }
  }

  /** The data laid over the buffers in order, as far as both go. */
  function Scatter(m: Data, iovs: seq<Iov>, data: Data): (r: Data)
    requires RoomFor(|m|, iovs, |data|)
    ensures |r| == |m|
    decreases |iovs|
  {
    if iovs == [] || data == [] then m else
    var take := Min(|data|, iovs[0].len);
    Scatter(WriteAt(m, iovs[0].ptr, data[..take]), iovs[1..], data[take..])
  }

  /** Whether address `x` is among the first `n` bytes of the buffers. */
  predicate Filled(iovs: seq<Iov>, n: nat, x: int)
    decreases |iovs|
  {
    iovs != [] && n > 0 &&
    (iovs[0].ptr <= x < iovs[0].ptr + Min(n, iovs[0].len) || Filled(iovs[1..], n - Min(n, iovs[0].len), x))
  }

  /** Memory outside the filled bytes is unchanged. */
  lemma {:induction false} ScatterFrame(m: Data, iovs: seq<Iov>, data: Data, x: nat)
    requires RoomFor(|m|, iovs, |data|) && x < |m| && !Filled(iovs, |data|, x)
    ensures Scatter(m, iovs, data)[x] == m[x]
    decreases |iovs|
  {
    if iovs == [] || data == [] {
    } else {
      var take := Min(|data|, iovs[0].len);
      ScatterFrame(WriteAt(m, iovs[0].ptr, data[..take]), iovs[1..], data[take..], x);
    }
  }

  lemma {:induction false} FilledInside(iovs: seq<Iov>, n: nat, x: int, a: Iov)
    requires Filled(iovs, n, x) && forall i :: 0 <= i < |iovs| ==> Apart(a, iovs[i])
    ensures !(a.ptr <= x < a.ptr + a.len)
    decreases |iovs|
  {
    var take := Min(n, iovs[0].len);
    assert Apart(a, iovs[0]);
    if !Filled(iovs[1..], n - take, x) {
    } else {
      FilledInside(iovs[1..], n - take, x, a);
    }
  }

  /** Buffers apart from the list keep their bytes. */
  lemma ScatterElsewhere(m: Data, iovs: seq<Iov>, data: Data, a: Iov)
    requires RoomFor(|m|, iovs, |data|) && a.ptr + a.len <= |m| && forall i :: 0 <= i < |iovs| ==> Apart(a, iovs[i])
    ensures Scatter(m, iovs, data)[a.ptr..a.ptr + a.len] == m[a.ptr..a.ptr + a.len]
  {
    hide Scatter;
    forall x | a.ptr <= x < a.ptr + a.len ensures Scatter(m, iovs, data)[x] == m[x] {
      if Filled(iovs, |data|, x) { FilledInside(iovs, |data|, x, a); }
      ScatterFrame(m, iovs, data, x);
    }
  }

  /** Gathering after scattering yields the data first, exactly when the buffers hold it. */
  lemma {:induction false} GatherAfterScatter(m: Data, iovs: seq<Iov>, data: Data)
    requires InBounds(m, iovs) && Disjoint(iovs)
    ensures RoomFor(|m|, iovs, |data|)
    ensures data <= Gather(Scatter(m, iovs, data), iovs) <==> |data| <= Capacity(iovs)
    decreases |iovs|
  {
    hide WriteAt, Apart, Gather;
    InBoundsHasRoom(m, iovs, |data|);
    if iovs == [] || data == [] {
      assert Scatter(m, iovs, data) == m;
    } else {
      var a, rest := iovs[0], iovs[1..];
      var take := Min(|data|, a.len);
      var m1 := WriteAt(m, a.ptr, data[..take]);
      var r := Scatter(m1, rest, data[take..]);
      assert r == Scatter(m, iovs, data);
      hide Scatter;
      forall i | 0 <= i < |rest| ensures Apart(a, rest[i]) { assert rest[i] == iovs[i + 1]; }
      assert Disjoint(rest) by {
        forall i, j | 0 <= i < j < |rest| ensures Apart(rest[i], rest[j]) {
          assert rest[i] == iovs[i + 1] && rest[j] == iovs[j + 1];
        }
      }
      hide Disjoint;
      ScatterElsewhere(m1, rest, data[take..], a);
      GatherAfterScatter(m1, rest, data[take..]);
      ChunkWritten(m, a, data[..take]);
      GatherCons(r, iovs);
      PrefixJoin(r[a.ptr..a.ptr + a.len], Gather(r, rest), data, take);
    }
  }

  lemma GatherCons(m: Data, iovs: seq<Iov>)
    requires InBounds(m, iovs) && iovs != []
    ensures Gather(m, iovs) == m[iovs[0].ptr..iovs[0].ptr + iovs[0].len] + Gather(m, iovs[1..])
  {
  }

  lemma ChunkWritten(m: Data, a: Iov, d: Data)
    requires a.ptr + a.len <= |m| && |d| <= a.len
    ensures WriteAt(m, a.ptr, d)[a.ptr..a.ptr + a.len][..|d|] == d
  {
  }

  lemma PrefixJoin(chunk: Data, g: Data, data: Data, take: nat)
    requires take == Min(|data|, |chunk|) && chunk[..take] == data[..take]
    requires data[take..] <= g <==> |data| - take <= |g|
    ensures data <= chunk + g <==> |data| <= |chunk| + |g|
  {
    assert data == data[..take] + data[take..];
    assert chunk == chunk[..take] + chunk[take..];
  }

  lemma GatherStep(m: Data, at: nat, n: nat, payload: Data)
    requires n > 0 && at + 8 * n <= |m| && InBounds(m, TableAt(m, at, n))
    ensures var ptr: int, len: int := U32(m, at), U32(m, at + 4); var tail := TableAt(m, at + 8, n - 1);
            && ptr + len <= |m| && InBounds(m, tail)
            && payload + Gather(m, TableAt(m, at, n)) == payload + m[ptr..ptr + len] + Gather(m, tail)
  {
    hide U32;
    var ptr: int, len: int := U32(m, at), U32(m, at + 4);
    var table, tail := TableAt(m, at, n), TableAt(m, at + 8, n - 1);
    assert table[0] == Iov(ptr, len) && table[1..] == tail;
    forall i | 0 <= i < |tail| ensures tail[i].ptr + tail[i].len <= |m| { assert tail[i] == table[i + 1]; }
    assert payload + (m[ptr..ptr + len] + Gather(m, tail)) == payload + m[ptr..ptr + len] + Gather(m, tail);
  }

  /** The gather loop of fd_write. */
  method GatherPayload(mem: array<byte>, iovsPtr: nat, iovsLen: nat) returns (payload: Data)
    requires iovsPtr + 8 * iovsLen <= mem.Length && InBounds(mem[..], TableAt(mem[..], iovsPtr, iovsLen))
    ensures payload == Gather(mem[..], TableAt(mem[..], iovsPtr, iovsLen))
  {
    hide U32, InBounds, Gather, TableAt;
    ghost var m, all := mem[..], Gather(mem[..], TableAt(mem[..], iovsPtr, iovsLen));
    payload := [];
    for i := 0 to iovsLen
      invariant InBounds(m, TableAt(m, iovsPtr + 8 * i, iovsLen - i))
      invariant payload + Gather(m, TableAt(m, iovsPtr + 8 * i, iovsLen - i)) == all
    {
      GatherStep(m, iovsPtr + 8 * i, iovsLen - i, payload);
      var bufPtr: int, bufLen: int := U32(mem[..], iovsPtr + i * 8), U32(mem[..], iovsPtr + i * 8 + 4);
      payload := payload + mem[bufPtr..bufPtr + bufLen];
    }
    NoMore(m, iovsPtr + 8 * iovsLen, payload);
  }

  lemma NoMore(m: Data, at: nat, payload: Data)
    requires at <= |m|
    ensures InBounds(m, TableAt(m, at, 0)) && payload + Gather(m, TableAt(m, at, 0)) == payload
  {
  }

  /** The scatter loop of fd_read and the count it reports. */
  method ScatterResponse(mem: array<byte>, iovs: seq<Iov>, response: Data, nreadPtr: nat)
    requires RoomFor(mem.Length, iovs, |response|) && nreadPtr + 4 <= mem.Length && |response| < U32_LIMIT
    modifies mem
    ensures mem[..] == WriteAt(Scatter(old(mem[..]), iovs, response), nreadPtr, Le32(|response|))
  {
    hide Le32, WriteAt;
    var n, written := |response|, 0;
    ghost var all := Scatter(mem[..], iovs, response);
    assert response[0..] == response && iovs[0..] == iovs;
    var i := 0;
    while i < |iovs|
      invariant 0 <= i <= |iovs| && 0 <= written <= n && RoomFor(mem.Length, iovs[i..], |response[written..]|)
      invariant Scatter(mem[..], iovs[i..], response[written..]) == all
    {
      if written >= n {
        break;
      }
      var take := Min(n - written, iovs[i].len);
      assert iovs[i..][0] == iovs[i] && iovs[i..][1..] == iovs[i + 1..];
      assert response[written..][..take] == response[written..written + take];
      assert response[written..][take..] == response[written + take..];
      Put(mem, iovs[i].ptr, response[written..written + take]);
      written := written + take;
      i := i + 1;
    }
    assert mem[..] == all;
    Put(mem, nreadPtr, Le32(n));
  }

  /** The loop of fd_read over the table, which also adds up the room. */
  method ReadTable(mem: array<byte>, iovsPtr: nat, iovsLen: nat) returns (iovs: seq<Iov>, totalCap: nat)
    requires iovsPtr + 8 * iovsLen <= mem.Length
    ensures iovs == TableAt(mem[..], iovsPtr, iovsLen) && totalCap == Capacity(iovs)
  {
    hide U32, TableAt, Capacity;
    ghost var m, all := mem[..], TableAt(mem[..], iovsPtr, iovsLen);
    iovs, totalCap := [], 0;
    TableEnds(m, iovsPtr, iovs);
    for i := 0 to iovsLen
      invariant iovs + TableAt(m, iovsPtr + 8 * i, iovsLen - i) == all && totalCap == Capacity(iovs)
    {
      var at := iovsPtr + i * 8;
      var iov := Iov(U32(mem[..], at), U32(mem[..], at + 4));
      TableStep(m, at, iovsLen - i, iovs);
      CapacitySnoc(iovs, iov);
      iovs, totalCap := iovs + [iov], totalCap + iov.len;
    }
    TableEnds(m, iovsPtr + 8 * iovsLen, iovs);
  }

  lemma TableEnds(m: Data, at: nat, iovs: seq<Iov>)
    requires at <= |m|
    ensures iovs + TableAt(m, at, 0) == iovs && Capacity([]) == 0
    ensures forall t: seq<Iov> :: [] + t == t
  {
  }

  lemma TableStep(m: Data, at: nat, n: nat, iovs: seq<Iov>)
    requires n > 0 && at + 8 * n <= |m|
    ensures iovs + TableAt(m, at, n) == iovs + [Iov(U32(m, at), U32(m, at + 4))] + TableAt(m, at + 8, n - 1)
  {
    hide U32;
    var x, tail := Iov(U32(m, at), U32(m, at + 4)), TableAt(m, at + 8, n - 1);
    assert iovs + ([x] + tail) == iovs + [x] + tail;
  }

  lemma {:induction false} CapacitySnoc(iovs: seq<Iov>, x: Iov)
    ensures Capacity(iovs + [x]) == Capacity(iovs) + x.len
  {
    if iovs != [] {
      CapacitySnoc(iovs[1..], x);
      assert (iovs + [x])[1..] == iovs[1..] + [x];
    } else {
      assert [x][1..] == [];
    }
  }

  /**
   * fd_read after the kernel answered: nothing but the filled bytes and the count
   * cell changed, and gathering the same buffers yields the response first exactly
   * when it was no longer than they are.
   */
  method FdRead(mem: array<byte>, iovsPtr: nat, iovsLen: nat, response: Data, nreadPtr: nat)
    returns (iovs: seq<Iov>)
    requires iovsPtr + 8 * iovsLen <= mem.Length
    requires RoomFor(mem.Length, TableAt(mem[..], iovsPtr, iovsLen), |response|)
    requires nreadPtr + 4 <= mem.Length && |response| < U32_LIMIT
    modifies mem
    ensures iovs == TableAt(old(mem[..]), iovsPtr, iovsLen)
    ensures InBounds(mem[..], iovs) && Disjoint(iovs) && AllApart(Iov(nreadPtr, 4), iovs) ==>
              (response <= Gather(mem[..], iovs) <==> |response| <= Capacity(iovs))
    ensures forall x :: 0 <= x < mem.Length && !Filled(iovs, |response|, x) && !(nreadPtr <= x < nreadPtr + 4) ==>
              mem[x] == old(mem[x])
    ensures Has(mem[..], nreadPtr, Le32(|response|))
  {
    hide U32, Le32, TableAt, Capacity, Scatter, Gather, Filled;
    ghost var m := mem[..];
    var cap: nat;
    iovs, cap := ReadTable(mem, iovsPtr, iovsLen);
    ScatterResponse(mem, iovs, response, nreadPtr);
    ghost var r := Scatter(m, iovs, response);
    WroteHere(r, nreadPtr, Le32(|response|));
    forall x | 0 <= x < |m| && !Filled(iovs, |response|, x) ensures r[x] == m[x] { ScatterFrame(m, iovs, response, x); }
    if InBounds(m, iovs) && Disjoint(iovs) && AllApart(Iov(nreadPtr, 4), iovs) {
      GatherAfterScatter(m, iovs, response);
      GatherApart(r, iovs, nreadPtr, Le32(|response|));
    }
  }

  lemma {:induction false} GatherApart(m: Data, iovs: seq<Iov>, at: nat, data: Data)
    requires InBounds(m, iovs) && at + |data| <= |m| && forall i :: 0 <= i < |iovs| ==> Apart(Iov(at, |data|), iovs[i])
    ensures Gather(WriteAt(m, at, data), iovs) == Gather(m, iovs)
    decreases |iovs|
  {
    if iovs == [] {
    } else {
      var a, m' := iovs[0], WriteAt(m, at, data);
      assert Apart(Iov(at, |data|), a);
      assert m'[a.ptr..a.ptr + a.len] == m[a.ptr..a.ptr + a.len];
      GatherApart(m, iovs[1..], at, data);
    }
  }

  // ---- What apart means, and one buffer ----

  predicate Holds(a: Iov, x: int) { a.ptr <= x < a.ptr + a.len }

  /** Two buffers are apart exactly when they have no address in common. */
  lemma ApartMeans(a: Iov, b: Iov)
    requires a.len > 0 && b.len > 0
    ensures Apart(a, b) <==> forall x :: !(Holds(a, x) && Holds(b, x))
    ensures Disjoint([a, b]) <==> Apart(a, b)
    ensures AllApart(a, [b]) <==> Apart(a, b)
  {
    var s := [a, b];
    assert s[0] == a && s[1] == b && [b][0] == b;
    if forall x :: !(Holds(a, x) && Holds(b, x)) {
      var x := if a.ptr <= b.ptr then b.ptr else a.ptr;
      assert !(Holds(a, x) && Holds(b, x));
    }
  }

  /** Data that fits one buffer stands at its start, and the rest of memory is as before. */
  lemma OneBuffer(m: Data, a: Iov, data: Data)
    requires a.ptr + a.len <= |m| && |data| <= a.len
    ensures RoomFor(|m|, [a], |data|) && Scatter(m, [a], data) == m[..a.ptr] + data + m[a.ptr + |data|..]
  {
    assert [a][1..] == [] && data[..|data|] == data && data[|data|..] == [];
    if data == [] { assert m[..a.ptr] + data + m[a.ptr..] == m; }
  }
}
