/**
 * fd_readdir: the kernel's directory listing cut into pages of directory
 * entries, each carrying the cookie to resume from.
 */
module DirPaging {
  import opened Wrappers
  import opened Bytes
  import opened Memory

  /** WASI's number. */
  const WASI_EINVAL: nat := 28

  datatype Entry = Entry(kind: byte, name: Data)

  // ---- The listing ----

  /** The entry at `cur` and where the next one starts; None when it is cut short. */
  function EntryAt(resp: Data, cur: nat): (r: Option<(Entry, nat)>)
    ensures r.Some? ==> cur < r.value.1 <= |resp| && |r.value.0.name| < U32_LIMIT
  {
    if cur + 5 > |resp| then None else
    var len := U32(resp, cur);
    if cur + 5 + len > |resp| then None
    else Some((Entry(resp[cur + 4], resp[cur + 5..cur + 5 + len]), cur + 5 + len))
  }

  /** At most `left` entries from `cur` on, up to one that is cut short. */
  function Entries(resp: Data, cur: nat, left: nat): (es: seq<Entry>)
    ensures |es| <= left && forall i :: 0 <= i < |es| ==> |es[i].name| < U32_LIMIT
    decreases left
  {
    if left == 0 || EntryAt(resp, cur).None? then [] else
    var (e, next) := EntryAt(resp, cur).value;
    [e] + Entries(resp, next, left - 1)
  }

  /** The kernel's side: the count, and for each entry the length of its name, its type and its name. */
  function Packed(es: seq<Entry>): (r: Data)
    requires forall i :: 0 <= i < |es| ==> |es[i].name| < U32_LIMIT
  {
    if es == [] then [] else Le32(|es[0].name|) + [es[0].kind] + es[0].name + Packed(es[1..])
  }

  predicate Listable(es: seq<Entry>) {
    |es| < U32_LIMIT && forall i :: 0 <= i < |es| ==> |es[i].name| < U32_LIMIT
  }

  function Serialised(es: seq<Entry>): (r: Data)
    requires Listable(es)
    ensures |r| >= 4
  {
    Le32(|es|) + Packed(es)
  }

  lemma PackedEntry(before: Data, e: Entry, rest: Data)
    requires |e.name| < U32_LIMIT
    ensures EntryAt(before + (Le32(|e.name|) + [e.kind] + e.name + rest), |before|) ==
            Some((e, |before| + 5 + |e.name|))
  {
    hide Le32, U32;
    var w := Le32(|e.name|);
    var b, n := before + (w + [e.kind] + e.name + rest), |before|;
    assert b[n..n + 4] == w && b[n + 4] == e.kind && b[n + 5..n + 5 + |e.name|] == e.name;
    U32OfLe32(b, n, |e.name|);
  }

  lemma {:induction false} PackedReads(before: Data, es: seq<Entry>)
    requires forall i :: 0 <= i < |es| ==> |es[i].name| < U32_LIMIT
    ensures Entries(before + Packed(es), |before|, |es|) == es
    decreases |es|
  {
    hide EntryAt, Le32;
    if es == [] {
    } else {
      var e, rest := es[0], Packed(es[1..]);
      var own := Le32(|e.name|) + [e.kind] + e.name;
      PackedEntry(before, e, rest);
      assert before + Packed(es) == before + own + rest;
      PackedReads(before + own, es[1..]);
      assert [e] + es[1..] == es;
    }
  }

  /** A listing the kernel made reads as the entries it was made of, types and names. */
  lemma ListedIsSerialised(es: seq<Entry>)
    requires |es| < 0x1_0000_0000 && forall i :: 0 <= i < |es| ==> |es[i].name| < 0x1_0000_0000
    ensures Listed(Serialised(es)) == es
  {
    hide Le32, U32, Entries, Packed;
    var b, w := Serialised(es), Le32(|es|);
    assert b[0..4] == w;
    U32OfLe32(b, 0, |es|);
    PackedReads(w, es);
  }

  // ---- A page ----

  function Need(e: Entry): nat { 24 + |e.name| }

  /** The entries from `start` on that fit, up to the first that does not. */
  function Page(es: seq<Entry>, start: nat, room: int): (p: seq<Entry>)
    ensures start <= |es| ==> p <= es[start..]
    ensures start > |es| ==> p == []
    decreases |es| - start
  {
    if start >= |es| || Need(es[start]) > room then []
    else [es[start]] + Page(es, start + 1, room - Need(es[start]))
  }

  function Total(p: seq<Entry>): nat {
    if p == [] then 0 else Need(p[0]) + Total(p[1..])
  }

  /** A page fits, and no longer run of entries would. */
  lemma {:induction false} PageIsLongest(es: seq<Entry>, start: nat, room: int)
    requires start <= |es| && room >= 0
    ensures var p := Page(es, start, room);
            Total(p) <= room && (start + |p| < |es| ==> Total(p) + Need(es[start + |p|]) > room)
    decreases |es| - start
  {
    if start >= |es| || Need(es[start]) > room {
    } else {
      PageIsLongest(es, start + 1, room - Need(es[start]));
      var p := Page(es, start, room);
      assert p[1..] == Page(es, start + 1, room - Need(es[start]));
    }
  }

  /** What a client sees that resumes after the last entry until a page is empty. */
  function Seen(es: seq<Entry>, start: nat, room: nat): seq<Entry>
    decreases |es| - start
  {
    var p := Page(es, start, room);
    if p == [] then [] else p + Seen(es, start + |p|, room)
  }

  predicate AllFit(es: seq<Entry>, room: nat) {
    forall i :: 0 <= i < |es| ==> Need(es[i]) <= room
  }

  /** Paging stops only at the end, or before an entry that is larger than the buffer. */
  lemma {:induction false} SeenIsPrefix(es: seq<Entry>, start: nat, room: nat)
    requires start <= |es|
    ensures var s := Seen(es, start, room);
            && s <= es[start..]
            && AllFit(s, room)
            && (start + |s| < |es| ==> Need(es[start + |s|]) > room)
    decreases |es| - start
  {
    hide Page;
    var p := Page(es, start, room);
    if p == [] {
      PageIsLongest(es, start, room);
    } else {
      PageFits(es, start, room);
      SeenIsPrefix(es, start + |p|, room);
      PrefixJoins(p, Seen(es, start + |p|, room), es, start);
    }
  }

  lemma PrefixJoins(p: seq<Entry>, rest: seq<Entry>, es: seq<Entry>, start: nat)
    requires start + |p| <= |es| && p <= es[start..] && rest <= es[start + |p|..]
    ensures p + rest <= es[start..]
  {
    assert es[start..] == es[start..start + |p|] + es[start + |p|..];
    assert p == es[start..][..|p|] == es[start..start + |p|];
  }

  lemma {:induction false} PageFits(es: seq<Entry>, start: nat, room: int)
    ensures forall i :: 0 <= i < |Page(es, start, room)| ==> Need(Page(es, start, room)[i]) <= room
    decreases |es| - start
  {
    if start >= |es| || Need(es[start]) > room {
    } else {
      PageFits(es, start + 1, room - Need(es[start]));
    }
  }

  /** The client sees every entry once and in order exactly when the buffer holds the largest. */
  lemma PagingIsComplete(es: seq<Entry>, room: nat)
    ensures Seen(es, 0, room) == es <==> AllFit(es, room)
  {
    SeenIsPrefix(es, 0, room);
    assert es[0..] == es;
    var s := Seen(es, 0, room);
    if |s| == |es| { assert s == es; }
  }

  // ---- A page in memory ----

  const ZEROS: Data := [0, 0, 0, 0, 0, 0, 0, 0, 0, 0, 0, 0]

  /** Cookie and inode as 64-bit words, the name's length and the file type. */
  function Head(cookie: u32, e: Entry): (h: Data)
    requires |e.name| < U32_LIMIT
    ensures |h| == 21
  {
    Le32(cookie) + ZEROS + Le32(|e.name|) + [e.kind]
  }

  /** The three bytes between head and name are not written. */
  function WriteDirent(m: Data, out: nat, cookie: u32, e: Entry): (r: Data)
    requires |e.name| < U32_LIMIT && out + Need(e) <= |m|
    ensures |r| == |m| && forall i :: 0 <= i < |m| && (i < out || out + Need(e) <= i) ==> r[i] == m[i]
  {
    WriteAt(WriteAt(m, out, Head(cookie, e)), out + 24, e.name)
  }

  ghost predicate Fits(m: Data, out: nat, p: seq<Entry>, cookie: nat) {
    && out + Total(p) <= |m| && (p != [] ==> cookie + |p| <= U32_LIMIT)
    && forall i :: 0 <= i < |p| ==> |p[i].name| < U32_LIMIT
  }

  ghost function WriteRun(m: Data, out: nat, p: seq<Entry>, cookie: nat): (r: Data)
    requires Fits(m, out, p, cookie)
    ensures |r| == |m| && forall i :: 0 <= i < |m| && (i < out || out + Total(p) <= i) ==> r[i] == m[i]
    decreases |p|
  {
    if p == [] then m else WriteRun(WriteDirent(m, out, cookie, p[0]), out + Need(p[0]), p[1..], cookie + 1)
  }

  /** The client's reading of a page: cookies and entries. */
  function ReadRun(m: Data, at: nat, end: nat): seq<(nat, Entry)>
    requires end <= |m|
    decreases end - at
  {
    if at + 24 > end || at + 24 + U32(m, at + 16) > end then [] else
    var next := at + 24 + U32(m, at + 16);
    [(U32(m, at), Entry(m[at + 20], m[at + 24..next]))] + ReadRun(m, next, end)
  }

  /** The entries of a page with the cookies to resume after each. */
  function Tagged(p: seq<Entry>, cookie: nat): seq<(nat, Entry)> {
    if p == [] then [] else [(cookie, p[0])] + Tagged(p[1..], cookie + 1)
  }

  /** A directory entry as a client finds it: the cookie and a zero inode as 64-bit words, length, type and name. */
  ghost predicate DirentStands(m: Data, out: nat, cookie: nat, e: Entry) {
    && out + Need(e) <= |m| && U32(m, out) == cookie && U32(m, out + 16) == |e.name|
    && U32(m, out + 4) == 0 && U32(m, out + 8) == 0 && U32(m, out + 12) == 0
    && m[out + 20] == e.kind && m[out + 24..out + Need(e)] == e.name
  }

  ghost predicate RunStands(m: Data, out: nat, p: seq<Entry>, cookie: nat)
    decreases |p|
  {
    p == [] || (DirentStands(m, out, cookie, p[0]) && RunStands(m, out + Need(p[0]), p[1..], cookie + 1))
  }

  lemma HeadParts(cookie: u32, e: Entry)
    requires |e.name| < U32_LIMIT
    ensures var h := Head(cookie, e);
            && h[0..4] == Le32(cookie) && h[4..8] == h[8..12] == h[12..16] == Le32(0)
            && h[16..20] == Le32(|e.name|) && h[20] == e.kind
  {
    ZeroWord();
    hide Le32;
    var h := Head(cookie, e);
    assert h[4..8] == h[8..12] == h[12..16] == [0, 0, 0, 0];
  }

  /** The word that a slice of the head is. */
  lemma HeadWord(m: Data, out: nat, h: Data, lo: nat, n: u32)
    requires out + 21 <= |m| && m[out..out + 21] == h && lo + 4 <= 21 && h[lo..lo + 4] == Le32(n)
    ensures U32(m, out + lo) == n
  {
    hide Le32, U32;
    Inner(m, out, 21, lo, lo + 4);
    U32OfLe32(m, out + lo, n);
  }

  lemma DirentWritten(m: Data, out: nat, cookie: u32, e: Entry)
    requires |e.name| < U32_LIMIT && out + Need(e) <= |m|
    ensures DirentStands(WriteDirent(m, out, cookie, e), out, cookie, e)
  {
    hide Le32, U32, Head;
    var h, m' := Head(cookie, e), WriteDirent(m, out, cookie, e);
    assert m'[out..out + 21] == h && m'[out + 20] == h[20] && m'[out + 24..out + Need(e)] == e.name;
    hide WriteAt, WriteDirent;
    HeadParts(cookie, e);
    HeadWord(m', out, h, 0, cookie);
    HeadWord(m', out, h, 4, 0);
    HeadWord(m', out, h, 8, 0);
    HeadWord(m', out, h, 12, 0);
    HeadWord(m', out, h, 16, |e.name|);
  }

  lemma ZeroWord()
    ensures Le32(0) == [0, 0, 0, 0]
  {
  }

  /** Only the bytes of the entry matter. */
  lemma DirentFrame(m: Data, m': Data, out: nat, cookie: nat, e: Entry)
    requires DirentStands(m, out, cookie, e) && |m'| == |m| && m'[out..out + Need(e)] == m[out..out + Need(e)]
    ensures DirentStands(m', out, cookie, e)
  {
    hide Value;
    var w, w' := m[out..out + Need(e)], m'[out..out + Need(e)];
    assert m[out + 20] == w[20] && m'[out + 20] == w'[20];
    Inner(m, out, Need(e), 0, 4);
    Inner(m', out, Need(e), 0, 4);
    Inner(m, out, Need(e), 4, 8);
    Inner(m', out, Need(e), 4, 8);
    Inner(m, out, Need(e), 8, 12);
    Inner(m', out, Need(e), 8, 12);
    Inner(m, out, Need(e), 12, 16);
    Inner(m', out, Need(e), 12, 16);
    Inner(m, out, Need(e), 16, 20);
    Inner(m', out, Need(e), 16, 20);
    Inner(m, out, Need(e), 24, Need(e));
    Inner(m', out, Need(e), 24, Need(e));
  }

  /** A slice of a slice. */
  lemma Inner(m: Data, out: nat, n: nat, lo: nat, hi: nat)
    requires lo <= hi <= n && out + n <= |m|
    ensures m[out + lo..out + hi] == m[out..out + n][lo..hi]
  {
    var w := m[out..out + n];
    assert forall i :: 0 <= i < |w| ==> w[i] == m[out + i];
  }

  lemma {:induction false} RunFrame(m: Data, m': Data, out: nat, p: seq<Entry>, cookie: nat)
    requires RunStands(m, out, p, cookie) && |m'| == |m| && out + Total(p) <= |m|
    requires m'[out..out + Total(p)] == m[out..out + Total(p)]
    ensures RunStands(m', out, p, cookie)
    decreases |p|
  {
    hide DirentStands;
    if p == [] {
    } else {
      var n, t := Need(p[0]), Total(p);
      assert m'[out..out + n] == m'[out..out + t][..n] && m[out..out + n] == m[out..out + t][..n];
      assert m'[out + n..out + t] == m'[out..out + t][n..] && m[out + n..out + t] == m[out..out + t][n..];
      DirentFrame(m, m', out, cookie, p[0]);
      RunFrame(m, m', out + n, p[1..], cookie + 1);
    }
  }

  lemma {:induction false} RunWritten(m: Data, out: nat, p: seq<Entry>, cookie: nat)
    requires Fits(m, out, p, cookie)
    ensures RunStands(WriteRun(m, out, p, cookie), out, p, cookie)
    decreases |p|
  {
    hide DirentStands, WriteDirent;
    if p == [] {
    } else {
      var m1, next := WriteDirent(m, out, cookie, p[0]), out + Need(p[0]);
      var r := WriteRun(m1, next, p[1..], cookie + 1);
      DirentWritten(m, out, cookie, p[0]);
      assert r[out..next] == m1[out..next];
      DirentFrame(m1, r, out, cookie, p[0]);
      RunWritten(m1, next, p[1..], cookie + 1);
    }
  }

  /** Reading a written page returns its entries, each with the index of the next one as cookie. */
  lemma {:induction false} PageReadsBack(m: Data, out: nat, p: seq<Entry>, cookie: nat)
    requires RunStands(m, out, p, cookie) && out + Total(p) <= |m|
    ensures ReadRun(m, out, out + Total(p)) == Tagged(p, cookie)
    decreases |p|
  {
    hide ReadRun, DirentStands, RunStands, Total, Tagged;
    if p == [] {
      ReadNothing(m, out, cookie);
    } else {
      RunParts(m, out, p, cookie);
      ReadOne(m, out, cookie, p[0], out + Total(p));
      PageReadsBack(m, out + Need(p[0]), p[1..], cookie + 1);
    }
  }

  lemma RunParts(m: Data, out: nat, p: seq<Entry>, cookie: nat)
    requires RunStands(m, out, p, cookie) && p != []
    ensures DirentStands(m, out, cookie, p[0]) && RunStands(m, out + Need(p[0]), p[1..], cookie + 1)
    ensures Total(p) == Need(p[0]) + Total(p[1..])
    ensures Tagged(p, cookie) == [(cookie, p[0])] + Tagged(p[1..], cookie + 1)
  {
    hide DirentStands;
  }

  lemma ReadNothing(m: Data, at: nat, cookie: nat)
    requires at <= |m|
    ensures ReadRun(m, at, at + Total([])) == Tagged([], cookie)
  {
  }

  lemma ReadOne(m: Data, at: nat, cookie: nat, e: Entry, end: nat)
    requires DirentStands(m, at, cookie, e) && at + Need(e) <= end <= |m|
    ensures ReadRun(m, at, end) == [(cookie, e)] + ReadRun(m, at + Need(e), end)
  {
    hide U32;
  }

  // ---- The loop ----

  /** The entry written where it fits; the loop only writes where it does. */
  ghost function PutDirent(m: Data, out: nat, cookie: nat, e: Entry): (r: Data)
    ensures |r| == |m|
  {
    if |e.name| < U32_LIMIT && cookie < U32_LIMIT && out + Need(e) <= |m| then WriteDirent(m, out, cookie, e) else m
  }

  /** What the loop does from a given point on: the memory and the end of what was written. */
  ghost function Fill(resp: Data, m: Data, cur: nat, left: nat, idx: nat, start: nat, out: nat, room: int): (Data, nat)
    decreases left
  {
    if left == 0 || EntryAt(resp, cur).None? then (m, out) else
    var (e, next) := EntryAt(resp, cur).value;
    if idx < start then Fill(resp, m, next, left - 1, idx + 1, start, out, room)
    else if Need(e) > room then (m, out)
    else Fill(resp, PutDirent(m, out, idx + 1, e), next, left - 1, idx + 1, start, out + Need(e), room - Need(e))
  }

  /** The entries the loop will still write. */
  function Rest(resp: Data, cur: nat, left: nat, idx: nat, start: nat, room: int): seq<Entry> {
    Page(Entries(resp, cur, left), if idx < start then start - idx else 0, room)
  }

  lemma RestStep(resp: Data, cur: nat, left: nat, idx: nat, start: nat, room: int)
    ensures var rest := Rest(resp, cur, left, idx, start, room);
            if left == 0 || EntryAt(resp, cur).None? then rest == [] else
            var (e, next) := EntryAt(resp, cur).value;
            if idx < start then rest == Rest(resp, next, left - 1, idx + 1, start, room)
            else if Need(e) > room then rest == []
            else rest == [e] + Rest(resp, next, left - 1, idx + 1, start, room - Need(e))
  {
    hide EntryAt, Page;
    if left > 0 && EntryAt(resp, cur).Some? {
      var (e, next) := EntryAt(resp, cur).value;
      var more := Entries(resp, next, left - 1);
      if idx < start { PageShift(e, more, start - idx, room); } else { PageFirst(e, more, room); }
    } else {
      PageOfNothing(if idx < start then start - idx else 0, room);
    }
  }

  lemma FillStep(resp: Data, m: Data, cur: nat, left: nat, idx: nat, start: nat, out: nat, room: int)
    ensures var fill := Fill(resp, m, cur, left, idx, start, out, room);
            if left == 0 || EntryAt(resp, cur).None? then fill == (m, out) else
            var (e, next) := EntryAt(resp, cur).value;
            if idx < start then fill == Fill(resp, m, next, left - 1, idx + 1, start, out, room)
            else if Need(e) > room then fill == (m, out)
            else fill == Fill(resp, PutDirent(m, out, idx + 1, e), next, left - 1, idx + 1, start, out + Need(e),
                              room - Need(e))
  {
    hide EntryAt, PutDirent;
  }

  /** The loop writes one page, wherever that page lies in memory. */
  lemma {:induction false} FillIsPage(resp: Data, m: Data, cur: nat, left: nat, idx: nat, start: nat, out: nat,
                                      room: int)
    requires idx + left < U32_LIMIT && out + Total(Rest(resp, cur, left, idx, start, room)) <= |m|
    ensures FillWrote(Fill(resp, m, cur, left, idx, start, out, room), m, out, Rest(resp, cur, left, idx, start, room),
                      if idx < start then start + 1 else idx + 1)
    decreases left
  {
    hide EntryAt, FillWrote, Rest, Fill, WriteDirent, Total;
    RestStep(resp, cur, left, idx, start, room);
    FillStep(resp, m, cur, left, idx, start, out, room);
    NothingWrote(m, out, if idx < start then start + 1 else idx + 1);
    if left == 0 || EntryAt(resp, cur).None? {
    } else {
      var (e, next) := EntryAt(resp, cur).value;
      if idx < start {
        FillIsPage(resp, m, next, left - 1, idx + 1, start, out, room);
      } else if Need(e) <= room {
        var rest := Rest(resp, next, left - 1, idx + 1, start, room - Need(e));
        TotalCons(e, rest);
        var m1 := PutDirent(m, out, idx + 1, e);
        FillIsPage(resp, m1, next, left - 1, idx + 1, start, out + Need(e), room - Need(e));
        RestShort(resp, next, left - 1, idx + 1, start, room - Need(e));
        FirstWrote(Fill(resp, m1, next, left - 1, idx + 1, start, out + Need(e), room - Need(e)), m, out, e, rest,
            idx + 1);
      }
    }
  }

  lemma TotalCons(e: Entry, rest: seq<Entry>)
    ensures Total([e] + rest) == Need(e) + Total(rest) && Total([]) == 0
  {
    assert ([e] + rest)[1..] == rest;
  }

  lemma RestShort(resp: Data, cur: nat, left: nat, idx: nat, start: nat, room: int)
    ensures |Rest(resp, cur, left, idx, start, room)| <= left
  {
    hide Page;
  }

  ghost predicate FillWrote(end: (Data, nat), m: Data, out: nat, p: seq<Entry>, cookie: nat) {
    Fits(m, out, p, cookie) && end == (WriteRun(m, out, p, cookie), out + Total(p))
  }

  lemma NothingWrote(m: Data, out: nat, cookie: nat)
    ensures out + Total([]) <= |m| ==> FillWrote((m, out), m, out, [], cookie)
  {
  }

  lemma FirstWrote(end: (Data, nat), m: Data, out: nat, e: Entry, p: seq<Entry>, cookie: nat)
    requires |e.name| < U32_LIMIT && out + Need(e) <= |m| && cookie + |p| < U32_LIMIT
    requires FillWrote(end, WriteDirent(m, out, cookie, e), out + Need(e), p, cookie + 1)
    ensures FillWrote(end, m, out, [e] + p, cookie)
  {
    hide WriteDirent;
    assert ([e] + p)[1..] == p;
  }

  lemma PageOfNothing(start: nat, room: int)
    ensures Page([], start, room) == []
  {
  }

  lemma PageFirst(e: Entry, rest: seq<Entry>, room: int)
    ensures Page([e] + rest, 0, room) == if Need(e) > room then [] else [e] + Page(rest, 0, room - Need(e))
  {
    if Need(e) <= room { PageShift(e, rest, 1, room - Need(e)); }
  }

  lemma {:induction false} PageShift(e: Entry, rest: seq<Entry>, start: nat, room: int)
    requires start > 0
    ensures Page([e] + rest, start, room) == Page(rest, start - 1, room)
    decreases |rest| - start
  {
    var es := [e] + rest;
    if start >= |es| || Need(es[start]) > room {
    } else {
      PageShift(e, rest, start + 1, room - Need(es[start]));
    }
  }

  /** The entries of a whole listing. */
  function Listed(resp: Data): seq<Entry>
    requires |resp| >= 4
  {
    Entries(resp, 4, U32(resp, 0))
  }

  method Readdir(resp: Data, mem: array<byte>, bufPtr: nat, bufLen: nat, start: nat, usedPtr: nat) returns (errno: nat)
    requires usedPtr + 4 <= mem.Length && bufLen < U32_LIMIT
    requires |resp| >= 4 ==> bufPtr + Total(Page(Listed(resp), start, bufLen)) <= mem.Length
    modifies mem
    ensures |resp| < 4 ==> errno == 28 && mem[..] == old(mem[..])
    ensures |resp| >= 4 ==>
              var p := Page(Listed(resp), start, bufLen);
              && errno == 0 && Total(p) <= bufLen && Fits(old(mem[..]), bufPtr, p, start + 1)
              && mem[..] == WriteAt(WriteRun(old(mem[..]), bufPtr, p, start + 1), usedPtr, Le32(Total(p)))
  {
    hide U32, Le32, Page, Entries, WriteRun, WriteAt, Total, Head, Fits, Fill, Rest;
    if |resp| < 4 {
      return WASI_EINVAL;
    }
    var count := U32(resp, 0);
    WholeIsRest(resp, count, start, bufLen);
    FillIsPage(resp, mem[..], 4, count, 0, start, bufPtr, bufLen);
    PageWithin(Listed(resp), start, bufLen);
    ghost var all := Fill(resp, mem[..], 4, count, 0, start, bufPtr, bufLen);
    var cur, written := 4, 0;
    for idx := 0 to count
      invariant 0 <= written <= bufLen && 0 <= cur
      invariant bufPtr + written + Total(Rest(resp, cur, count - idx, idx, start, bufLen - written)) <= mem.Length
      invariant Fill(resp, mem[..], cur, count - idx, idx, start, bufPtr + written, bufLen - written) == all
    {
      FillStep(resp, mem[..], cur, count - idx, idx, start, bufPtr + written, bufLen - written);
      RestStep(resp, cur, count - idx, idx, start, bufLen - written);
      if cur + 5 > |resp| {
        assert all == (mem[..], bufPtr + written);
        break;
      }
      var nameLen: int := U32(resp, cur);
      var filetype := resp[cur + 4];
      if cur + 5 + nameLen > |resp| {
        assert all == (mem[..], bufPtr + written);
        break;
      }
      var name := resp[cur + 5..cur + 5 + nameLen];
      cur := cur + 5 + nameLen;
      if idx < start {
        continue;
      }
      var need := 24 + nameLen;
      if written + need > bufLen {
        assert all == (mem[..], bufPtr + written);
        break;
      }
      var out := bufPtr + written;
      TotalCons(Entry(filetype, name), Rest(resp, cur, count - idx - 1, idx + 1, start, bufLen - written - need));
      Put(mem, out, Head(idx + 1, Entry(filetype, name)));
      Put(mem, out + 24, name);
      written := written + need;
    }
    FillStep(resp, mem[..], cur, 0, count, start, bufPtr + written, bufLen - written);
    assert all == (mem[..], bufPtr + written);
    Put(mem, usedPtr, Le32(written));
    return 0;
  }

  lemma WholeIsRest(resp: Data, count: nat, start: nat, room: int)
    requires |resp| >= 4 && count == U32(resp, 0)
    ensures Rest(resp, 4, count, 0, start, room) == Page(Listed(resp), start, room)
  {
    hide Page;
  }

  lemma PageWithin(es: seq<Entry>, start: nat, room: nat)
    ensures Total(Page(es, start, room)) <= room
  {
    if start <= |es| { PageIsLongest(es, start, room); }
  }

  // ---- The client ----

  /**
   * A client whose count cell lies outside the buffer reads back the page and
   * resumes from the last cookie, the index after the last entry it was given.
   */
  lemma ClientReadsPage(m: Data, bufPtr: nat, bufLen: nat, usedPtr: nat, p: seq<Entry>, start: nat, m': Data)
    requires Fits(m, bufPtr, p, start + 1) && Total(p) <= bufLen < U32_LIMIT && bufPtr + bufLen <= |m|
    requires usedPtr + 4 <= bufPtr || bufPtr + bufLen <= usedPtr <= |m| - 4
    requires m' == WriteAt(WriteRun(m, bufPtr, p, start + 1), usedPtr, Le32(Total(p)))
    ensures U32(m', usedPtr) == Total(p) && RunStands(m', bufPtr, p, start + 1)
    ensures ReadRun(m', bufPtr, bufPtr + U32(m', usedPtr)) == Tagged(p, start + 1)
    ensures p != [] ==> LastCookie(Tagged(p, start + 1)) == start + |p|
    ensures forall i :: 0 <= i < |m| && !(bufPtr <= i < bufPtr + Total(p)) && !(usedPtr <= i < usedPtr + 4) ==>
              m'[i] == m[i]
  {
    hide U32, Le32, WriteRun, ReadRun, RunStands, Tagged;
    var r := WriteRun(m, bufPtr, p, start + 1);
    RunWritten(m, bufPtr, p, start + 1);
    assert m'[bufPtr..bufPtr + Total(p)] == r[bufPtr..bufPtr + Total(p)];
    RunFrame(r, m', bufPtr, p, start + 1);
    PageReadsBack(m', bufPtr, p, start + 1);
    WroteHere(r, usedPtr, Le32(Total(p)));
    U32OfLe32(m', usedPtr, Total(p));
    if p != [] { TaggedLast(p, start + 1); }
  }

  function LastCookie(page: seq<(nat, Entry)>): nat
    requires page != []
  {
    page[|page| - 1].0
  }

  lemma {:induction false} TaggedLast(p: seq<Entry>, cookie: nat)
    requires p != []
    ensures |Tagged(p, cookie)| == |p| && LastCookie(Tagged(p, cookie)) == cookie + |p| - 1
    decreases |p|
  {
    if |p| <= 1 {
    } else {
      TaggedLast(p[1..], cookie + 1);
    }
  }

  /** The entries of a page that was read. */
  function Untagged(page: seq<(nat, Entry)>): (es: seq<Entry>)
    ensures |es| == |page|
  {
    if page == [] then [] else [page[0].1] + Untagged(page[1..])
  }

  lemma {:induction false} UntaggedTagged(p: seq<Entry>, cookie: nat)
    ensures Untagged(Tagged(p, cookie)) == p
    decreases |p|
  {
    if p == [] {
    } else {
      UntaggedTagged(p[1..], cookie + 1);
      assert Tagged(p, cookie)[1..] == Tagged(p[1..], cookie + 1);
    }
  }

  /**
   * The client's loop: it calls fd_readdir, reads the entries and the cookie of the
   * last one from memory, and resumes there until a page is empty. It sees every
   * entry once and in order exactly when the buffer holds the largest.
   */
  method ReadWholeDirectory(resp: Data, mem: array<byte>, bufPtr: nat, bufLen: nat,
                            usedPtr: nat) returns (seen: seq<Entry>)
    requires |resp| >= 4 && bufLen < U32_LIMIT && bufPtr + bufLen <= mem.Length && usedPtr + 4 <= mem.Length
    requires usedPtr + 4 <= bufPtr || bufPtr + bufLen <= usedPtr
    modifies mem
    ensures seen == Seen(Listed(resp), 0, bufLen)
    ensures seen == Listed(resp) <==> AllFit(Listed(resp), bufLen)
    ensures forall es: seq<Entry> :: Listable(es) && resp == Serialised(es) ==>
              (seen == es <==> forall i :: 0 <= i < |es| ==> 24 + |es[i].name| <= bufLen)
  {
    hide Page, Total, Untagged, Seen, Listed, AllFit, LastCookie, SeenSoFar, Serialised;
    forall es: seq<Entry> | Listable(es) && resp == Serialised(es)
      ensures Listed(resp) == es && (AllFit(es, bufLen) <==> forall i :: 0 <= i < |es| ==> 24 + |es[i].name| <= bufLen)
    {
      ListedIsSerialised(es);
      FitsByLength(es, bufLen);
    }
    ghost var es := Listed(resp);
    PagingIsComplete(es, bufLen);
    SeenStarts(es, bufLen);
    seen := [];
    var cookie := 0;
    while true
      invariant cookie <= |es| && SeenSoFar(seen, es, cookie, bufLen)
      decreases |es| - cookie
    {
      SeenStep(seen, es, cookie, bufLen);
      var page := ReadPage(resp, mem, bufPtr, bufLen, usedPtr, cookie);
      if page == [] {
        return;
      }
      seen := seen + Untagged(page);
      cookie := LastCookie(page);
    }
  }

  lemma FitsByLength(es: seq<Entry>, room: nat)
    ensures AllFit(es, room) <==> forall i :: 0 <= i < |es| ==> 24 + |es[i].name| <= room
  {
  }

  /** One turn: the page from `cookie` on as the client reads it. */
  method ReadPage(resp: Data, mem: array<byte>, bufPtr: nat, bufLen: nat, usedPtr: nat,
                  cookie: nat) returns (page: seq<(nat, Entry)>)
    requires |resp| >= 4 && bufLen < U32_LIMIT && bufPtr + bufLen <= mem.Length && usedPtr + 4 <= mem.Length
    requires usedPtr + 4 <= bufPtr || bufPtr + bufLen <= usedPtr
    modifies mem
    ensures Untagged(page) == Page(Listed(resp), cookie, bufLen)
    ensures page != [] ==> LastCookie(page) == cookie + |Page(Listed(resp), cookie, bufLen)|
  {
    hide U32, Le32, Page, WriteRun, WriteAt, Total, Fits, ReadRun, Tagged, Untagged, Listed, LastCookie;
    ghost var m, p := mem[..], Page(Listed(resp), cookie, bufLen);
    PageWithin(Listed(resp), cookie, bufLen);
    var errno := Readdir(resp, mem, bufPtr, bufLen, cookie, usedPtr);
    ClientReadsPage(m, bufPtr, bufLen, usedPtr, p, cookie, mem[..]);
    page := ReadRun(mem[..], bufPtr, bufPtr + U32(mem[..], usedPtr));
    UntaggedTagged(p, cookie + 1);
  }

  /** What the client has seen and what it will see is all it sees. */
  ghost predicate SeenSoFar(seen: seq<Entry>, es: seq<Entry>, cookie: nat, room: nat) {
    seen + Seen(es, cookie, room) == Seen(es, 0, room)
  }

  lemma SeenStarts(es: seq<Entry>, room: nat)
    ensures SeenSoFar([], es, 0, room)
  {
    hide Seen;
    assert [] + Seen(es, 0, room) == Seen(es, 0, room);
  }

  lemma SeenStep(seen: seq<Entry>, es: seq<Entry>, cookie: nat, room: nat)
    requires cookie <= |es| && SeenSoFar(seen, es, cookie, room)
    ensures var p := Page(es, cookie, room);
            && cookie + |p| <= |es|
            && (if p == [] then seen == Seen(es, 0, room) else SeenSoFar(seen + p, es, cookie + |p|, room))
  {
    hide Page;
    var p := Page(es, cookie, room);
    if p == [] {
      assert seen + [] == seen;
    } else {
      var rest := Seen(es, cookie + |p|, room);
      assert seen + p + rest == seen + (p + rest);
    }
  }

  // ---- A client that takes a short page for the last ----

  /** What a client sees that stops at the first page shorter than its buffer. */
  function SeenUntilShort(es: seq<Entry>, start: nat, room: nat): seq<Entry>
    decreases |es| - start
  {
    var p := Page(es, start, room);
    if p == [] || Total(p) < room then p else p + SeenUntilShort(es, start + |p|, room)
  }

  /** The room that the entries from `lo` up to `hi` take. */
  function Sum(es: seq<Entry>, lo: nat, hi: nat): nat
    requires lo <= hi <= |es|
  {
    Total(es[lo..hi])
  }

  lemma {:induction false} TotalAppend(a: seq<Entry>, b: seq<Entry>)
    ensures Total(a + b) == Total(a) + Total(b)
    decreases |a|
  {
    if a == [] {
      assert a + b == b;
    } else {
      TotalAppend(a[1..], b);
      assert (a + b)[1..] == a[1..] + b;
    }
  }

  lemma SumSplit(es: seq<Entry>, lo: nat, mid: nat, hi: nat)
    requires lo <= mid <= hi <= |es|
    ensures Sum(es, lo, hi) == Sum(es, lo, mid) + Sum(es, mid, hi)
    ensures mid < hi ==> Sum(es, mid, hi) >= Need(es[mid])
  {
    TotalAppend(es[lo..mid], es[mid..hi]);
    assert es[lo..mid] + es[mid..hi] == es[lo..hi];
  }

  function Mult(m: nat, room: nat): nat {
    if m == 0 then 0 else Mult(m - 1, room) + room
  }

  predicate Boundary(es: seq<Entry>, start: nat, x: nat)
    requires start <= |es|
  {
    exists i :: start <= i <= |es| && Sum(es, start, i) == x
  }

  /** Entries end at every multiple of the buffer's size short of their whole length. */
  ghost predicate EndsAtMultiples(es: seq<Entry>, start: nat, room: nat)
    requires start <= |es|
  {
    forall m: nat :: m >= 1 && Mult(m, room) < Sum(es, start, |es|) ==> Boundary(es, start, Mult(m, room))
  }

  lemma {:induction false} MultGrows(m: nat, room: nat)
    requires m >= 1
    ensures Mult(m, room) >= room
  {
    if m <= 1 {
    } else {
      MultGrows(m - 1, room);
    }
  }

  /** Where a page ends: everything fits, or the next entry would not. */
  lemma PageEnd(es: seq<Entry>, start: nat, room: nat) returns (k: nat)
    requires start <= |es|
    ensures start <= k <= |es| && Page(es, start, room) == es[start..k] && Sum(es, start, k) <= room
    ensures k < |es| ==> Sum(es, start, k) + Need(es[k]) > room
  {
    var p := Page(es, start, room);
    k := start + |p|;
    PageIsLongest(es, start, room);
    assert es[start..][..|p|] == es[start..k];
  }

  /** No entry ends at the buffer's size when the page is short and more entries follow. */
  lemma ShortPageMisses(es: seq<Entry>, start: nat, room: nat, k: nat)
    requires start <= k < |es| && Sum(es, start, k) < room < Sum(es, start, k) + Need(es[k])
    ensures !Boundary(es, start, room) && room < Sum(es, start, |es|)
  {
    hide Sum;
    forall i | start <= i <= |es| ensures Sum(es, start, i) != room {
      if i <= k { SumSplit(es, start, i, k); } else { SumSplit(es, start, k, i); }
    }
    SumSplit(es, start, k, |es|);
  }

  /** A full page moves the multiples on by one. */
  lemma FullPageShifts(es: seq<Entry>, start: nat, room: nat, k: nat)
    requires start <= k <= |es| && Sum(es, start, k) == room
    ensures EndsAtMultiples(es, start, room) <==> EndsAtMultiples(es, k, room)
  {
    hide Sum;
    SumSplit(es, start, k, |es|);
    if EndsAtMultiples(es, start, room) {
      forall m: nat | m >= 1 && Mult(m, room) < Sum(es, k, |es|) ensures Boundary(es, k, Mult(m, room)) {
        assert Mult(m + 1, room) == Mult(m, room) + room;
        var i :| start <= i <= |es| && Sum(es, start, i) == Mult(m + 1, room);
        if i >= k { SumSplit(es, start, k, i); } else {
          SumSplit(es, start, i, k);
          MultGrows(m, room);
        }
      }
    }
    if EndsAtMultiples(es, k, room) {
      forall m: nat | m >= 1 && Mult(m, room) < Sum(es, start, |es|) ensures Boundary(es, start, Mult(m, room)) {
        if m == 1 {
          assert Sum(es, start, k) == Mult(1, room);
        } else {
          assert Mult(m, room) == Mult(m - 1, room) + room;
          var i :| k <= i <= |es| && Sum(es, k, i) == Mult(m - 1, room);
          SumSplit(es, start, k, i);
        }
      }
    }
  }

  lemma {:induction false} ShortPageFrom(es: seq<Entry>, start: nat, room: nat)
    requires start <= |es| && room > 0
    ensures SeenUntilShort(es, start, room) == es[start..] <==> EndsAtMultiples(es, start, room)
    decreases |es| - start
  {
    hide Page;
    var k := PageEnd(es, start, room);
    if k == |es| {
      forall m: nat | m >= 1 ensures Mult(m, room) >= Sum(es, start, |es|) { MultGrows(m, room); }
      SeenAtEnd(es, room);
      assert es[start..k] == es[start..] && es[start..] + [] == es[start..];
    } else if Sum(es, start, k) < room {
      ShortPageMisses(es, start, room, k);
      assert Mult(1, room) == room;
      assert |es[start..k]| < |es[start..]|;
    } else {
      FullPageShifts(es, start, room, k);
      ShortPageFrom(es, k, room);
      var rest := SeenUntilShort(es, k, room);
      assert es[start..] == es[start..k] + es[k..];
      assert es[start..k] + rest == es[start..k] + es[k..] <==> rest == es[k..] by {
        if es[start..k] + rest == es[start..k] + es[k..] {
          assert rest == (es[start..k] + rest)[k - start..] == es[k..];
        }
      }
    }
  }

  lemma SeenAtEnd(es: seq<Entry>, room: nat)
    ensures SeenUntilShort(es, |es|, room) == []
  {
  }

  /**
   * `fd_readdir` of WASI snapshot preview1 lets a client take a page shorter than its
   * buffer for the last. Such a client sees the whole directory exactly when the
   * entries end at every multiple of the buffer's size short of their whole length,
   * since the shim never cuts an entry to fill a page.
   */
  lemma ShortPageEndsEarly(es: seq<Entry>, room: nat)
    ensures SeenUntilShort(es, 0, room) == es <==> es == [] || (room > 0 && EndsAtMultiples(es, 0, room))
  {
    assert es[0..] == es;
    if room > 0 {
      ShortPageFrom(es, 0, room);
      if es == [] { assert EndsAtMultiples(es, 0, room); }
    }
  }
}
