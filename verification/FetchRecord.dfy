/**
 * The native fetch response record: a fixed header, a table of header pairs, the
 * pairs' strings, the body and the error text, with offsets computed in one loop
 * and bytes written in others.
 */
module FetchRecord {
  import opened Wrappers
  import opened Bytes
  import opened Memory

  const FIXED := 36
  const PAIR := 16

  type Header = (Data, Data)

  /** The strings of the header list, one after the other. */
  function Text(hs: seq<Header>): Data {
    if hs == [] then [] else Text(hs[..|hs| - 1]) + hs[|hs| - 1].0 + hs[|hs| - 1].1
  }

  /** One row of the pair table: where key and value stand, and their lengths. */
  function Row(at: nat, h: Header): (r: Data)
    requires at + |h.0| + |h.1| < U32_LIMIT
    ensures |r| == PAIR
  {
    Le32(at) + Le32(|h.0|) + Le32(at + |h.0|) + Le32(|h.1|)
  }

  function Table(hs: seq<Header>, base: nat): (r: Data)
    requires base + |Text(hs)| < U32_LIMIT
    ensures |r| == PAIR * |hs|
  {
    if hs == [] then [] else
    var less := hs[..|hs| - 1];
    Table(less, base) + Row(base + |Text(less)|, hs[|hs| - 1])
  }

  function Base(hs: seq<Header>): nat { FIXED + PAIR * |hs| }

  function Size(hs: seq<Header>, body: Data, error: Data): nat {
    Base(hs) + |Text(hs)| + |body| + |error|
  }

  /** The header words: size, version, status, pair table, body, error. */
  function Fixed(status: u32, hs: seq<Header>, body: Data, error: Data): (r: Data)
    requires Size(hs, body, error) < U32_LIMIT
    ensures |r| == FIXED
  {
    var bodyAt := Base(hs) + |Text(hs)|;
    Le32(Size(hs, body, error)) + Le32(1) + Le32(status) + Le32(FIXED) + Le32(|hs|) +
    Le32(bodyAt) + Le32(|body|) + Le32(bodyAt + |body|) + Le32(|error|)
  }

  /** The parts tile the record. */
  function Record(status: u32, hs: seq<Header>, body: Data, error: Data): (r: Data)
    requires Size(hs, body, error) < U32_LIMIT
    ensures |r| == Size(hs, body, error)
  {
    Fixed(status, hs, body, error) + Table(hs, Base(hs)) + Text(hs) + body + error
  }

  // ---- Encoding ----

  datatype Spans = Spans(keyAt: nat, keyLen: nat, valueAt: nat, valueLen: nat)

  /** What the first loop computes for a header list. */
  ghost function Plan(hs: seq<Header>, base: nat): (r: seq<Spans>)
    ensures |r| == |hs|
  {
    if hs == [] then [] else
    var less, h := hs[..|hs| - 1], hs[|hs| - 1];
    var at := base + |Text(less)|;
    Plan(less, base) + [Spans(at, |h.0|, at + |h.0|, |h.1|)]
  }

  ghost function Strings(hs: seq<Header>): (r: seq<Data>)
    ensures |r| == 2 * |hs|
  {
    if hs == [] then [] else Strings(hs[..|hs| - 1]) + [hs[|hs| - 1].0, hs[|hs| - 1].1]
  }

  lemma {:induction false} PlanAt(hs: seq<Header>, base: nat, i: nat)
    requires i < |hs|
    ensures Plan(hs, base)[i] == Spans(base + |Text(hs[..i])|, |hs[i].0|, base + |Text(hs[..i])| + |hs[i].0|, |hs[i].1|)
    decreases |hs|
  {
    var n := |hs| - 1;
    if i >= n {
    } else {
      PlanAt(hs[..n], base, i);
      assert hs[..n][..i] == hs[..i];
    }
  }

  lemma {:induction false} TextGrows(hs: seq<Header>, i: nat)
    requires i <= |hs|
    ensures |Text(hs[..i])| <= |Text(hs)| && Text(hs[..i]) <= Text(hs)
    decreases |hs|
  {
    if i == |hs| {
      assert hs[..i] == hs;
    } else {
      TextGrows(hs[..|hs| - 1], i);
      assert hs[..|hs| - 1][..i] == hs[..i];
    }
  }

  /** The offsets and the strings, in one pass. */
  method LayOut(hs: seq<Header>) returns (pairs: seq<Spans>, strings: seq<Data>, cursor: nat)
    ensures pairs == Plan(hs, Base(hs)) && strings == Strings(hs) && cursor == Base(hs) + |Text(hs)|
  {
    cursor := FIXED + |hs| * PAIR;
    pairs, strings := [], [];
    for i := 0 to |hs|
      invariant pairs == Plan(hs[..i], Base(hs)) && strings == Strings(hs[..i])
      invariant cursor == Base(hs) + |Text(hs[..i])|
    {
      assert hs[..i + 1][..i] == hs[..i];
      var (key, value) := hs[i];
      var keyAt := cursor;
      cursor := cursor + |key|;
      var valueAt := cursor;
      cursor := cursor + |value|;
      strings := strings + [key, value];
      pairs := pairs + [Spans(keyAt, |key|, valueAt, |value|)];
    }
    assert hs[..|hs|] == hs;
  }

  method PutRow(record: array<byte>, at: nat, p: Spans)
    requires at + PAIR <= record.Length
    requires p.keyAt < U32_LIMIT && p.keyLen < U32_LIMIT && p.valueAt < U32_LIMIT && p.valueLen < U32_LIMIT
    modifies record
    ensures record[..at + PAIR] ==
        old(record[..at]) + (Le32(p.keyAt) + Le32(p.keyLen) + Le32(p.valueAt) + Le32(p.valueLen))
  {
    hide Le32;
    PutWord(record, at, p.keyAt);
    PutWord(record, at + 4, p.keyLen);
    PutWord(record, at + 8, p.valueAt);
    PutWord(record, at + 12, p.valueLen);
    ghost var was := old(record[..at]);
    assert was + Le32(p.keyAt) + Le32(p.keyLen) + Le32(p.valueAt) + Le32(p.valueLen) ==
           was + (Le32(p.keyAt) + Le32(p.keyLen) + Le32(p.valueAt) + Le32(p.valueLen));
  }

  lemma TextStep(hs: seq<Header>, i: nat)
    requires i < |hs|
    ensures Text(hs[..i + 1]) == Text(hs[..i]) + hs[i].0 + hs[i].1
  {
    assert hs[..i + 1][..i] == hs[..i];
  }

  lemma TableStep(hs: seq<Header>, base: nat, i: nat)
    requires base + |Text(hs)| < U32_LIMIT && i < |hs|
    ensures base + |Text(hs[..i + 1])| < U32_LIMIT && base + |Text(hs[..i])| + |hs[i].0| + |hs[i].1| < U32_LIMIT
    ensures Table(hs[..i + 1], base) == Table(hs[..i], base) + Row(base + |Text(hs[..i])|, hs[i])
  {
    hide Text, Row;
    TextGrows(hs, i + 1);
    TextStep(hs, i);
    assert hs[..i + 1][..i] == hs[..i];
  }

  /** The loop over the pair table. */
  method PutTable(record: array<byte>, hs: seq<Header>, pairs: seq<Spans>)
    requires Base(hs) + |Text(hs)| < U32_LIMIT && Base(hs) <= record.Length && pairs == Plan(hs, Base(hs))
    modifies record
    ensures record[..Base(hs)] == old(record[..FIXED]) + Table(hs, Base(hs))
  {
    hide Le32, Text, Table, Plan;
    ghost var was, base := record[..FIXED], Base(hs);
    TableEnds(hs, base, was);
    for i := 0 to |pairs|
      invariant base + |Text(hs[..i])| < U32_LIMIT
      invariant record[..FIXED + PAIR * i] == was + Table(hs[..i], base)
    {
      TableStep(hs, base, i);
      PlanAt(hs, base, i);
      ghost var row := Row(base + |Text(hs[..i])|, hs[i]);
      PutRow(record, FIXED + i * PAIR, pairs[i]);
      assert was + Table(hs[..i], base) + row == was + (Table(hs[..i], base) + row);
    }
  }

  lemma TableEnds(hs: seq<Header>, base: nat, was: Data)
    requires base + |Text(hs)| < U32_LIMIT
    ensures hs[..|hs|] == hs && Text(hs[..0]) == [] && was + Table(hs[..0], base) == was
  {
  }

  function Cat(ss: seq<Data>): Data {
    if ss == [] then [] else Cat(ss[..|ss| - 1]) + ss[|ss| - 1]
  }

  lemma {:induction false} CatOfStrings(hs: seq<Header>)
    ensures Cat(Strings(hs)) == Text(hs)
  {
    if hs == [] {
    } else {
      var n := |hs| - 1;
      CatOfStrings(hs[..n]);
      var ss, less := Strings(hs), Strings(hs[..n]);
      assert ss[..|ss| - 1] == less + [hs[n].0] && (less + [hs[n].0])[..|less|] == less;
    }
  }

  lemma {:induction false} CatGrows(ss: seq<Data>, i: nat)
    requires i <= |ss|
    ensures |Cat(ss[..i])| <= |Cat(ss)|
    decreases |ss|
  {
    if i == |ss| {
      assert ss[..i] == ss;
    } else {
      CatGrows(ss[..|ss| - 1], i);
      assert ss[..|ss| - 1][..i] == ss[..i];
    }
  }

  /** The loop over the strings, with its own cursor. */
  method PutStrings(record: array<byte>, start: nat, strings: seq<Data>)
    requires start + |Cat(strings)| <= record.Length
    modifies record
    ensures record[..start + |Cat(strings)|] == old(record[..start]) + Cat(strings)
  {
    ghost var was := record[..start];
    var writeCursor := start;
    assert was + [] == was;
    for i := 0 to |strings|
      invariant writeCursor == start + |Cat(strings[..i])| <= record.Length
      invariant record[..writeCursor] == was + Cat(strings[..i])
    {
      CatGrows(strings, i + 1);
      assert strings[..i + 1][..i] == strings[..i];
      PutBytes(record, writeCursor, strings[i]);
      assert was + Cat(strings[..i]) + strings[i] == was + (Cat(strings[..i]) + strings[i]);
      writeCursor := writeCursor + |strings[i]|;
    }
    assert strings[..|strings|] == strings;
  }

  method PutFixed(record: array<byte>, status: u32, hs: seq<Header>, body: Data, error: Data, bodyAt: nat)
    requires Size(hs, body, error) < U32_LIMIT && record.Length == Size(hs, body, error)
    requires bodyAt == Base(hs) + |Text(hs)|
    modifies record
    ensures record[..FIXED] == Fixed(status, hs, body, error)
  {
    hide Le32, Text;
    PutWord(record, 0, record.Length);
    PutWord(record, 4, 1);
    PutWord(record, 8, status);
    PutWord(record, 12, FIXED);
    PutWord(record, 16, |hs|);
    PutWord(record, 20, bodyAt);
    PutWord(record, 24, |body|);
    PutWord(record, 28, bodyAt + |body|);
    PutWord(record, 32, |error|);
    assert old(record[..0]) + Le32(record.Length) == Le32(record.Length);
  }

  method EncodeResponse(status: u32, hs: seq<Header>, body: Data, error: Option<Data>) returns (bytes: Data)
    requires Size(hs, body, if error.None? then [] else error.value) < U32_LIMIT
    ensures bytes == Record(status, hs, body, if error.None? then [] else error.value)
  {
    hide Text, Table, Plan, Strings, Cat, Fixed, Le32;
    var errorBytes := if error.None? then [] else error.value;
    var pairs, strings, bodyAt := LayOut(hs);
    var errorAt := bodyAt + |body|;
    var record := new byte[errorAt + |errorBytes|];
    PutFixed(record, status, hs, body, errorBytes, bodyAt);
    ghost var parts := Fixed(status, hs, body, errorBytes);
    PutTable(record, hs, pairs);
    parts := parts + Table(hs, Base(hs));
    CatOfStrings(hs);
    PutStrings(record, FIXED + |pairs| * PAIR, strings);
    parts := parts + Text(hs);
    assert record[..bodyAt] == parts;
    PutBytes(record, bodyAt, body);
    PutBytes(record, errorAt, errorBytes);
    assert record[..errorAt + |errorBytes|] == parts + body + errorBytes;
    return record[..errorAt + |errorBytes|];
  }

  // ---- Reading back ----

  /** readNativeSpan through the offset and length stored at `at`; None for its exception. */
  function SpanAt(rec: Data, at: nat): Option<Data> {
    if at + 8 > |rec| || U32(rec, at) + U32(rec, at + 4) > |rec| then None
    else Some(rec[U32(rec, at)..U32(rec, at) + U32(rec, at + 4)])
  }

  lemma {:induction false} TableGrows(hs: seq<Header>, base: nat, i: nat)
    requires base + |Text(hs)| < U32_LIMIT && i <= |hs|
    ensures base + |Text(hs[..i])| < U32_LIMIT && Table(hs[..i], base) <= Table(hs, base)
    decreases |hs|
  {
    hide Row, Text;
    TextGrows(hs, i);
    if i == |hs| {
      assert hs[..i] == hs;
    } else {
      var n := |hs| - 1;
      TableStep(hs, base, n);
      assert hs[..n + 1] == hs && hs[..n][..i] == hs[..i];
      TableGrows(hs[..n], base, i);
    }
  }

  lemma TableHas(hs: seq<Header>, base: nat, i: nat)
    requires base + |Text(hs)| < U32_LIMIT && i < |hs|
    ensures base + |Text(hs[..i])| + |hs[i].0| + |hs[i].1| < U32_LIMIT
    ensures Has(Table(hs, base), PAIR * i, Row(base + |Text(hs[..i])|, hs[i]))
  {
    hide Row, Text, Table;
    TableStep(hs, base, i);
    TableGrows(hs, base, i + 1);
    var row, t, part := Row(base + |Text(hs[..i])|, hs[i]), Table(hs, base), Table(hs[..i + 1], base);
    assert t[PAIR * i..PAIR * i + PAIR] == part[PAIR * i..PAIR * i + PAIR] == row;
  }

  lemma TextHas(hs: seq<Header>, i: nat)
    requires i < |hs|
    ensures var at := |Text(hs[..i])|; Has(Text(hs), at, hs[i].0) && Has(Text(hs), at + |hs[i].0|, hs[i].1)
  {
    hide Text;
    TextGrows(hs, i + 1);
    TextStep(hs, i);
    PrefixHas(Text(hs[..i]), hs[i].0, hs[i].1, Text(hs));
  }

  lemma PrefixHas(a: Data, k: Data, v: Data, t: Data)
    requires a + k + v <= t
    ensures Has(t, |a|, k) && Has(t, |a| + |k|, v)
  {
    var part := a + k + v;
    assert part[|a|..|a| + |k|] == k && part[|a| + |k|..] == v;
    assert t[..|part|] == part;
    assert t[|a|..|a| + |k|] == t[..|part|][|a|..|a| + |k|];
    assert t[|a| + |k|..|part|] == t[..|part|][|a| + |k|..];
  }

  /** A stored offset and length return the item that stands there. */
  lemma SpanReads(rec: Data, at: nat, off: u32, item: Data)
    requires |item| < U32_LIMIT && Has(rec, at, Le32(off)) && Has(rec, at + 4, Le32(|item|)) && Has(rec, off, item)
    ensures SpanAt(rec, at) == Some(item)
  {
    hide U32, Le32;
    U32OfLe32(rec, at, off);
    U32OfLe32(rec, at + 4, |item|);
  }

  lemma RowWords(at: nat, h: Header)
    requires at + |h.0| + |h.1| < U32_LIMIT
    ensures var r := Row(at, h);
            Has(r, 0, Le32(at)) && Has(r, 4, Le32(|h.0|)) && Has(r, 8, Le32(at + |h.0|)) && Has(r, 12, Le32(|h.1|))
  {
    hide Le32;
    var r := Row(at, h);
    assert r[0..4] == Le32(at) && r[4..8] == Le32(|h.0|) && r[8..12] == Le32(at + |h.0|) && r[12..16] == Le32(|h.1|);
  }

  lemma HasInside(b: Data, off: nat, x: Data, at: nat, d: Data)
    requires Has(b, off, x) && Has(x, at, d)
    ensures Has(b, off + at, d)
  {
    assert x == x[..at] + d + x[at + |d|..];
    HasSplit(b, off, x[..at] + d, x[at + |d|..]);
    HasSplit(b, off, x[..at], d);
  }

  /** Where the parts stand. */
  lemma Parts(status: u32, hs: seq<Header>, body: Data, error: Data)
    requires Size(hs, body, error) < U32_LIMIT
    ensures var rec, at := Record(status, hs, body, error), Base(hs) + |Text(hs)|;
            && Has(rec, 0, Fixed(status, hs, body, error)) && Has(rec, FIXED, Table(hs, Base(hs)))
            && Has(rec, Base(hs), Text(hs)) && Has(rec, at, body) && Has(rec, at + |body|, error)
  {
    hide Fixed, Table, Text;
    var rec, f, t, x := Record(status, hs, body, error), Fixed(status, hs, body, error), Table(hs, Base(hs)), Text(hs);
    assert rec[0..|rec|] == rec;
    HasSplit(rec, 0, f + t + x + body, error);
    HasSplit(rec, 0, f + t + x, body);
    HasSplit(rec, 0, f + t, x);
    HasSplit(rec, 0, f, t);
    hide Has;
  }

  lemma FixedWords(status: u32, hs: seq<Header>, body: Data, error: Data)
    requires Size(hs, body, error) < U32_LIMIT
    ensures var f, at := Fixed(status, hs, body, error), Base(hs) + |Text(hs)|;
            && Has(f, 0, Le32(Size(hs, body, error))) && Has(f, 4, Le32(1)) && Has(f, 8, Le32(status))
            && Has(f, 12, Le32(FIXED)) && Has(f, 16, Le32(|hs|)) && Has(f, 20, Le32(at)) && Has(f, 24, Le32(|body|))
            && Has(f, 28, Le32(at + |body|)) && Has(f, 32, Le32(|error|))
  {
    hide Le32, Text;
    var f, at := Fixed(status, hs, body, error), Base(hs) + |Text(hs)|;
    assert f[0..4] == Le32(Size(hs, body, error)) && f[4..8] == Le32(1) && f[8..12] == Le32(status);
    assert f[12..16] == Le32(FIXED) && f[16..20] == Le32(|hs|) && f[20..24] == Le32(at) && f[24..28] == Le32(|body|);
    assert f[28..32] == Le32(at + |body|) && f[32..36] == Le32(|error|);
  }

  lemma WordInside(b: Data, x: Data, at: nat, v: u32)
    requires Has(b, 0, x) && Has(x, at, Le32(v))
    ensures at + 4 <= |b| && U32(b, at) == v && Has(b, at, Le32(v))
  {
    hide U32, Le32;
    HasInside(b, 0, x, at, Le32(v));
    U32OfLe32(b, at, v);
  }

  /** The fixed words, the body and the error text read back. */
  lemma ResponseReadsBack(status: u32, hs: seq<Header>, body: Data, error: Data)
    requires Size(hs, body, error) < U32_LIMIT
    ensures var rec := Record(status, hs, body, error);
            && U32(rec, 0) == |rec| && U32(rec, 4) == 1 && U32(rec, 8) == status
            && U32(rec, 12) == FIXED && U32(rec, 16) == |hs|
            && SpanAt(rec, 20) == Some(body) && SpanAt(rec, 28) == Some(error)
  {
    hide U32, Le32, Has, Fixed, Text, Table, SpanAt;
    var rec, f, at := Record(status, hs, body, error), Fixed(status, hs, body, error), Base(hs) + |Text(hs)|;
    Parts(status, hs, body, error);
    FixedWords(status, hs, body, error);
    WordInside(rec, f, 0, |rec|);
    WordInside(rec, f, 4, 1);
    WordInside(rec, f, 8, status);
    WordInside(rec, f, 12, FIXED);
    WordInside(rec, f, 16, |hs|);
    WordInside(rec, f, 20, at);
    WordInside(rec, f, 24, |body|);
    WordInside(rec, f, 28, at + |body|);
    WordInside(rec, f, 32, |error|);
    SpanReads(rec, 20, at, body);
    SpanReads(rec, 28, at + |body|, error);
  }

  /** Every key and every value reads back through its row. */
  lemma PairReadsBack(status: u32, hs: seq<Header>, body: Data, error: Data, i: nat)
    requires Size(hs, body, error) < U32_LIMIT && i < |hs|
    ensures var rec := Record(status, hs, body, error);
            SpanAt(rec, FIXED + PAIR * i) == Some(hs[i].0) && SpanAt(rec, FIXED + PAIR * i + 8) == Some(hs[i].1)
  {
    hide Le32, Has, Fixed, Text, Table, SpanAt, Row;
    var rec, base := Record(status, hs, body, error), Base(hs);
    var at := base + |Text(hs[..i])|;
    Parts(status, hs, body, error);
    TableHas(hs, base, i);
    TextHas(hs, i);
    var row, p := Row(at, hs[i]), FIXED + PAIR * i;
    RowWords(at, hs[i]);
    HasInside(rec, FIXED, Table(hs, base), PAIR * i, row);
    HasInside(rec, p, row, 0, Le32(at));
    HasInside(rec, p, row, 4, Le32(|hs[i].0|));
    HasInside(rec, p, row, 8, Le32(at + |hs[i].0|));
    HasInside(rec, p, row, 12, Le32(|hs[i].1|));
    HasInside(rec, base, Text(hs), |Text(hs[..i])|, hs[i].0);
    HasInside(rec, base, Text(hs), |Text(hs[..i])| + |hs[i].0|, hs[i].1);
    SpanReads(rec, p, at, hs[i].0);
    SpanReads(rec, p + 8, at + |hs[i].0|, hs[i].1);
  }
}
