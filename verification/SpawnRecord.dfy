/**
 * The spawn request record: built by the C library in one zeroed 64 KiB buffer
 * with a bump pointer, offsets patched into the header and into vectors that
 * were reserved before the strings they point at.
 */
module SpawnRecord {
  import opened Wrappers
  import opened Bytes

  const CAP := 65536
  const HEADER := 88

  /** The record so far: what stands at each offset that was written as a unit. */
  type Regions = map<nat, Data>

  function Align(l: nat): (r: nat)
    ensures l <= r < l + 4 && r % 4 == 0
    ensures l % 4 == 0 ==> r == l
  {
    (l + 3) / 4 * 4
  }

  /** Regions are word-aligned, in bounds, disjoint, and stand in the buffer. */
  ghost predicate Laid(b: Data, len: nat, r: Regions) {
    && len <= |b|
    && (forall o :: o in r ==> o % 4 == 0 && |r[o]| > 0 && o + |r[o]| <= len && Has(b, o, r[o]))
    && (forall o, p :: o in r && p in r && o < p ==> o + |r[o]| <= p)
  }

  const ZERO: Data := [0, 0, 0, 0]

  /** `n` zeroed words from `from` on, each a region of its own. */
  function Words(from: nat, n: nat): (r: Regions)
    requires from % 4 == 0
    ensures forall o :: o in r ==> from <= o < from + 4 * n && o % 4 == 0 && r[o] == ZERO
  {
    if n == 0 then map[] else Words(from, n - 1)[from + 4 * (n - 1) := ZERO]
  }

  lemma WordIn(from: nat, n: nat, k: nat)
    requires from % 4 == 0 && k < n
    ensures from + 4 * k in Words(from, n)
  {
    if k >= n - 1 {
    } else {
      WordIn(from, n - 1, k);
    }
  }

  // ---- Effects of the primitive writes on the layout ----

  lemma LaidAppend(b: Data, len: nat, r: Regions, b': Data, data: Data)
    requires Laid(b, len, r) && |b'| == |b| && Align(len) + |data| <= |b| && data != []
    requires b'[..len] == b[..len] && Has(b', Align(len), data)
    ensures Laid(b', Align(len) + |data|, r[Align(len) := data])
  {
    var off := Align(len);
    forall o | o in r ensures Has(b', o, r[o]) { HasWithin(b, b', o, r[o], len); }
  }

  lemma LaidKeep(b: Data, len: nat, r: Regions, b': Data, len': nat)
    requires Laid(b, len, r) && len <= len' <= |b'| && b'[..len] == b[..len]
    ensures Laid(b', len', r)
  {
    forall o | o in r ensures Has(b', o, r[o]) { HasWithin(b, b', o, r[o], len); }
  }

  lemma AlignedStep(len: nat, n: nat)
    requires len % 4 == 0
    ensures (len + 4 * n) % 4 == 0 && Align(len + 4 * n) == len + 4 * n
  {
  }

  lemma {:induction false} LaidReserve(b: Data, len: nat, r: Regions, n: nat)
    requires Laid(b, len, r) && len % 4 == 0 && len + 4 * n <= |b|
    requires forall k :: len <= k < len + 4 * n ==> b[k] == 0
    ensures Laid(b, len + 4 * n, r + Words(len, n))
  {
    hide Laid;
    if n == 0 {
      assert r + Words(len, n) == r;
    } else {
      var at := len + 4 * (n - 1);
      assert Has(b, at, ZERO) by { assert b[at..at + 4] == ZERO; }
      hide Has;
      LaidReserve(b, len, r, n - 1);
      AlignedStep(len, n - 1);
      LaidAppend(b, at, r + Words(len, n - 1), b, ZERO);
      assert (r + Words(len, n - 1))[at := ZERO] == r + Words(len, n);
    }
  }

  lemma LaidPatch(b: Data, len: nat, r: Regions, b': Data, pos: nat, w: Data)
    requires Laid(b, len, r) && pos in r && |r[pos]| == |w| == 4 && |b'| == |b|
    requires Has(b', pos, w) && b'[..pos] == b[..pos] && b'[pos + 4..] == b[pos + 4..]
    ensures Laid(b', len, r[pos := w])
  {
    forall o | o in r && o != pos ensures Has(b', o, r[o]) {
      if o < pos {
        HasWithin(b, b', o, r[o], pos);
      } else {
        var d := o - (pos + 4);
        assert b'[o..o + |r[o]|] == b'[pos + 4..][d..d + |r[o]|];
        assert b[o..o + |r[o]|] == b[pos + 4..][d..d + |r[o]|];
      }
    }
  }

  // ---- Spans and vectors ----

  /** Earlier regions stay, with new contents at most in `fields`. */
  ghost predicate Agree(r: Regions, r': Regions, fields: set<nat>) {
    forall o :: o in r ==> o in r' && |r'[o]| == |r[o]| && (o in fields || r'[o] == r[o])
  }

  lemma AgreeTrans(r: Regions, r1: Regions, r2: Regions, f1: set<nat>, f2: set<nat>, f: set<nat>)
    requires Agree(r, r1, f1) && Agree(r1, r2, f2)
    requires forall o :: o in r && (o in f1 || o in f2) ==> o in f
    ensures Agree(r, r2, f)
  {
  }

  ghost predicate WordAt(r: Regions, pos: nat, v: u32) {
    pos in r && r[pos] == Le32(v)
  }

  /** A word whose value the layout does not fix. */
  ghost predicate IsWord(r: Regions, pos: nat) {
    pos in r && |r[pos]| == 4
  }

  /** The {offset, length} pair at `pos` describes `data`, which stands at or after `lo`. */
  ghost predicate SpanAt(r: Regions, len: nat, pos: nat, lo: nat, data: Data) {
    && IsWord(r, pos) && |data| < U32_LIMIT && WordAt(r, pos + 4, |data|)
    && var off := U32(r[pos], 0);
       lo <= off && off % 4 == 0 && off + |data| <= len && (data != [] ==> off in r && r[off] == data)
  }

  lemma SpanKeeps(r: Regions, len: nat, r': Regions, len': nat, fields: set<nat>, pos: nat, lo: nat, data: Data)
    requires SpanAt(r, len, pos, lo, data) && Agree(r, r', fields) && len <= len'
    requires pos !in fields && pos + 4 !in fields && forall f :: f in fields ==> f < lo
    ensures SpanAt(r', len', pos, lo, data)
  {
  }

  /** A string field written by spawn_record_span, which leaves an empty string out. */
  ghost predicate OptSpan(r: Regions, len: nat, pos: nat, data: Data) {
    if data == [] then WordAt(r, pos, 0) && WordAt(r, pos + 4, 0) else SpanAt(r, len, pos, HEADER, data)
  }

  lemma OptSpanKeeps(r: Regions, len: nat, r': Regions, len': nat, fields: set<nat>, pos: nat, data: Data)
    requires OptSpan(r, len, pos, data) && Agree(r, r', fields) && len <= len'
    requires pos !in fields && pos + 4 !in fields && forall f :: f in fields ==> f < HEADER
    ensures OptSpan(r', len', pos, data)
  {
    if data != [] { SpanKeeps(r, len, r', len', fields, pos, HEADER, data); }
  }

  function SpanLen(len: nat, data: Data): nat {
    if data == [] then len else Align(len) + |data|
  }

  /** The {offset, count} pair at `field` describes a vector of spans for the strings. */
  ghost predicate VecAt(r: Regions, len: nat, field: nat, strings: seq<Data>, count: u32) {
    if strings == [] then WordAt(r, field, 0) && WordAt(r, field + 4, 0)
    else
      && IsWord(r, field) && WordAt(r, field + 4, count)
      && var vec := U32(r[field], 0);
         && HEADER <= vec && vec % 4 == 0 && vec + 8 * |strings| <= len
         && forall i :: 0 <= i < |strings| ==> SpanAt(r, len, vec + 8 * i, vec + 8 * |strings|, strings[i])
  }

  lemma VecKeeps(r: Regions, len: nat, r': Regions, len': nat, fields: set<nat>, field: nat,
                 strings: seq<Data>, count: u32)
    requires VecAt(r, len, field, strings, count) && Agree(r, r', fields) && len <= len'
    requires field !in fields && field + 4 !in fields && forall f :: f in fields ==> f < HEADER
    ensures VecAt(r', len', field, strings, count)
  {
    if strings != [] {
      var vec := U32(r[field], 0);
      forall i | 0 <= i < |strings| ensures SpanAt(r', len', vec + 8 * i, vec + 8 * |strings|, strings[i]) {
        SpanKeeps(r, len, r', len', fields, vec + 8 * i, vec + 8 * |strings|, strings[i]);
      }
    }
  }

  /** The {offset, count} pair at `field` describes a vector of words. */
  ghost predicate WordsAt(r: Regions, len: nat, field: nat, words: seq<u32>, count: u32) {
    if words == [] then WordAt(r, field, 0) && WordAt(r, field + 4, 0)
    else
      && IsWord(r, field) && WordAt(r, field + 4, count)
      && var vec := U32(r[field], 0);
         && HEADER <= vec && vec % 4 == 0 && vec + 4 * |words| <= len
         && forall i :: 0 <= i < |words| ==> WordAt(r, vec + 4 * i, words[i])
  }

  lemma WordsKeep(r: Regions, len: nat, r': Regions, len': nat, fields: set<nat>, field: nat,
                  words: seq<u32>, count: u32)
    requires WordsAt(r, len, field, words, count) && Agree(r, r', fields) && len <= len'
    requires field !in fields && field + 4 !in fields && forall f :: f in fields ==> f < HEADER
    ensures WordsAt(r', len', field, words, count)
  {
  }

  /** The length after the strings are appended one by one. */
  function StringsLen(len: nat, strings: seq<Data>): (l: nat)
    ensures l >= len
  {
    if strings == [] then len
    else Align(StringsLen(len, strings[..|strings| - 1])) + |strings[|strings| - 1]|
  }

  lemma {:induction false} StringsLenPrefix(len: nat, strings: seq<Data>, i: nat)
    requires i <= |strings|
    ensures StringsLen(len, strings[..i]) <= StringsLen(len, strings)
    decreases |strings|
  {
    if i == |strings| {
      assert strings[..i] == strings;
    } else {
      var less := strings[..|strings| - 1];
      StringsLenPrefix(len, less, i);
      assert less[..i] == strings[..i];
    }
  }

  function VecLen(len: nat, strings: seq<Data>): nat {
    if strings == [] then len else StringsLen(Align(len) + 8 * |strings|, strings)
  }

  function WordsLen(len: nat, words: seq<u32>): nat {
    if words == [] then len else Align(len) + 4 * |words|
  }

  class RecordBuilder {
    const bytes: array<byte>
    var len: nat
    ghost var regions: Regions

    ghost predicate Valid()
      reads this, bytes
    {
      bytes.Length == CAP && HEADER <= len <= CAP && Laid(bytes[..], len, regions)
    }

    constructor ()
      ensures Valid() && fresh(bytes) && len == HEADER && regions == Words(0, HEADER / 4)
    {
      bytes := new byte[CAP](_ => 0);
      len := HEADER;
      regions := Words(0, HEADER / 4);
      new;
      LaidReserve(bytes[..], 0, map[], HEADER / 4);
      assert map[] + Words(0, HEADER / 4) == Words(0, HEADER / 4);
    }

    /** spawn_record_align4: zero bytes up to the next word. */
    method Align4() returns (ok: bool)
      requires Valid()
      modifies this`len, bytes
      ensures Valid() && bytes[..old(len)] == old(bytes[..len])
      ensures ok && len == Align(old(len)) && forall i :: old(len) <= i < len ==> bytes[i] == 0
    {
      ghost var b, l := bytes[..], len;
      while len % 4 != 0
        invariant l <= len <= Align(l) <= CAP && bytes[..l] == b[..l] && forall i :: l <= i < len ==> bytes[i] == 0
        decreases Align(l) - len
      {
        if len >= bytes.Length {
          return false;
        }
        bytes[len] := 0;
        len := len + 1;
      }
      LaidKeep(b, l, regions, bytes[..], len);
      return true;
    }

    /** spawn_record_append: the data at the next word; fails when it does not fit. */
    method Append(data: Data) returns (off: Option<nat>)
      requires Valid()
      modifies this, bytes
      ensures Valid()
      ensures off.Some? <==> Align(old(len)) + |data| <= CAP
      ensures off.Some? ==> off.value == Align(old(len)) && len == off.value + |data|
                            && regions == if data == [] then old(regions) else old(regions)[off.value := data]
    {
      ghost var b, l := bytes[..], len;
      var ok := Align4();
      if len + |data| > bytes.Length {
        return None;
      }
      var at := len;
      forall k | 0 <= k < |data| {
        bytes[at + k] := data[k];
      }
      assert bytes[..][at..at + |data|] == data;
      assert bytes[..l] == b[..l];
      if data == [] {
        LaidKeep(b, l, regions, bytes[..], at);
      } else {
        LaidAppend(b, l, regions, bytes[..], data);
        regions := regions[at := data];
      }
      len := at + |data|;
      return Some(at);
    }

    /** Room for `n` zeroed words. */
    method Reserve(n: nat) returns (off: Option<nat>)
      requires Valid()
      modifies this, bytes
      ensures Valid()
      ensures off.Some? <==> Align(old(len)) + 4 * n <= CAP
      ensures off.Some? ==> off.value == Align(old(len)) && len == off.value + 4 * n
                            && regions == old(regions) + Words(off.value, n)
    {
      ghost var b, l := bytes[..], len;
      var ok := Align4();
      if len + 4 * n > bytes.Length {
        return None;
      }
      var at := len;
      forall k | at <= k < at + 4 * n {
        bytes[k] := 0;
      }
      assert bytes[..l] == b[..l];
      LaidKeep(b, l, regions, bytes[..], at);
      LaidReserve(bytes[..], at, regions, n);
      regions := regions + Words(at, n);
      len := at + 4 * n;
      return Some(at);
    }

    /** Stores a word into a field of the header or of a vector. */
    method Patch(pos: nat, v: u32)
      requires Valid() && pos in regions && |regions[pos]| == 4
      modifies this`regions, bytes
      ensures Valid() && regions == old(regions)[pos := Le32(v)]
    {
      ghost var b := bytes[..];
      var w := Le32(v);
      bytes[pos], bytes[pos + 1], bytes[pos + 2], bytes[pos + 3] := w[0], w[1], w[2], w[3];
      assert bytes[..][pos..pos + 4] == w;
      assert bytes[..][..pos] == b[..pos] && bytes[..][pos + 4..] == b[pos + 4..];
      LaidPatch(b, len, regions, bytes[..], pos, w);
      regions := regions[pos := w];
    }

    /** spawn_record_span_allow_empty: the string, and its span at `pos`. */
    method PutString(pos: nat, ghost lo: nat, value: Data) returns (ok: bool)
      requires Valid() && IsWord(regions, pos) && IsWord(regions, pos + 4) && lo <= Align(len)
      modifies this, bytes
      ensures Valid()
      ensures ok <==> Align(old(len)) + |value| <= CAP
      ensures ok ==> len == Align(old(len)) + |value| && SpanAt(regions, len, pos, lo, value)
      ensures ok ==> Agree(old(regions), regions, {pos, pos + 4})
    {
      hide Laid, Le32, U32;
      ghost var r := regions;
      var off := Append(value);
      if off.None? {
        return false;
      }
      AppendKeys(r, value, off.value, old(bytes[..]), old(len));
      ghost var r1 := regions;
      Patch(pos, off.value);
      Patch(pos + 4, |value|);
      WordValue(off.value);
      return true;
    }

    /** spawn_record_span: an empty string is recorded as absent. */
    method PutSpan(pos: nat, value: Data) returns (ok: bool)
      requires Valid() && IsWord(regions, pos) && IsWord(regions, pos + 4)
      modifies this, bytes
      ensures Valid()
      ensures ok <==> SpanLen(old(len), value) <= CAP
      ensures ok ==> len == SpanLen(old(len), value) && OptSpan(regions, len, pos, value)
      ensures ok ==> Agree(old(regions), regions, {pos, pos + 4})
    {
      hide Laid, Le32, U32;
      if |value| == 0 {
        Patch(pos, 0);
        Patch(pos + 4, 0);
        return true;
      }
      ok := PutString(pos, HEADER, value);
    }

    /** Appends the strings, filling the reserved span slots at `vec`. */
    method FillStrings(vec: nat, strings: seq<Data>) returns (ok: bool)
      requires Valid() && vec % 4 == 0 && len == vec + 8 * |strings|
      requires HasWords(regions, vec, 2 * |strings|)
      modifies this, bytes
      ensures Valid()
      ensures ok <==> StringsLen(old(len), strings) <= CAP
      ensures ok ==> len == StringsLen(old(len), strings)
      ensures ok ==> forall j :: 0 <= j < |strings| ==>
                       SpanAt(regions, len, vec + 8 * j, vec + 8 * |strings|, strings[j])
      ensures ok ==> Agree(old(regions), regions, Slots(vec, 2 * |strings|))
    {
      hide Laid, Le32, U32, SpanAt, Slots, HasWords, SpansAt, StringsLen, Agree;
      var n := |strings|;
      ghost var lo := vec + 8 * n;
      NoSpans(regions, len, vec, lo, strings);
      for i := 0 to n
        invariant Valid() && lo <= len == StringsLen(lo, strings[..i])
        invariant HasWords(regions, vec, 2 * n) && Agree(old(regions), regions, Slots(vec, 2 * n))
        invariant SpansAt(regions, len, vec, lo, strings, i)
      {
        ghost var r, l := regions, len;
        HasWordsAt(regions, vec, 2 * n, 2 * i);
        HasWordsAt(regions, vec, 2 * n, 2 * i + 1);
        StringsLenStep(lo, strings, i);
        ok := PutString(vec + 8 * i, lo, strings[i]);
        if !ok {
          return;
        }
        ghost var put := {vec + 8 * i, vec + 8 * i + 4};
        SpansKeep(r, l, regions, len, vec, lo, strings, i);
        HasWordsKept(r, regions, put, vec, 2 * n);
        AgreeTrans(old(regions), r, regions, Slots(vec, 2 * n), put, Slots(vec, 2 * n));
      }
      assert strings[..n] == strings;
      AllSpans(regions, len, vec, lo, strings);
      return true;
    }

    /** A vector of spans and then its strings; `count` is what the header records. */
    method PutStringVec(field: nat, strings: seq<Data>, count: u32) returns (ok: bool)
      requires Valid() && WordAt(regions, field, 0) && WordAt(regions, field + 4, 0) && field + 8 <= HEADER
      modifies this, bytes
      ensures Valid()
      ensures ok <==> VecLen(old(len), strings) <= CAP
      ensures ok ==> len == VecLen(old(len), strings) && VecAt(regions, len, field, strings, count)
      ensures ok ==> Agree(old(regions), regions, {field, field + 4})
    {
      hide Laid, Le32, U32, SpanAt, Slots, HasWords;
      if |strings| == 0 {
        return true;
      }
      var n := |strings|;
      var vec := ReserveVec(field, 2 * n, count);
      if vec.None? {
        return false;
      }
      ghost var r2 := regions;
      ok := FillStrings(vec.value, strings);
      if ok {
        SlotsAbove(old(bytes[..]), old(len), old(regions), vec.value, 2 * n);
        AgreeTrans(old(regions), r2, regions, {field, field + 4}, Slots(vec.value, 2 * n), {field, field + 4});
        assert field in r2 && field + 4 in r2;
      }
    }

    /** Reserves a vector of words and stores its offset and count in the header. */
    method ReserveVec(field: nat, n: nat, count: u32) returns (vec: Option<nat>)
      requires Valid() && WordAt(regions, field, 0) && WordAt(regions, field + 4, 0) && field + 8 <= HEADER
      modifies this, bytes
      ensures Valid()
      ensures vec.Some? <==> Align(old(len)) + 4 * n <= CAP
      ensures vec.Some? ==>
                && vec.value == Align(old(len)) && HEADER <= vec.value && len == vec.value + 4 * n
                && HasWords(regions, vec.value, n) && Agree(old(regions), regions, {field, field + 4})
                && IsWord(regions, field) && U32(regions[field], 0) == vec.value && WordAt(regions, field + 4, count)
                && field !in Slots(vec.value, n) && field + 4 !in Slots(vec.value, n)
    {
      hide Laid, Le32, U32;
      vec := Reserve(n);
      if vec.Some? {
        ReserveKeys(old(regions), n, vec.value, old(bytes[..]), old(len));
        Patch(field, vec.value);
        Patch(field + 4, count);
        WordValue(vec.value);
      }
    }

    /** A vector of words. */
    method PutWords(field: nat, words: seq<u32>, count: u32) returns (ok: bool)
      requires Valid() && WordAt(regions, field, 0) && WordAt(regions, field + 4, 0) && field + 8 <= HEADER
      modifies this, bytes
      ensures Valid()
      ensures ok <==> WordsLen(old(len), words) <= CAP
      ensures ok ==> len == WordsLen(old(len), words) && WordsAt(regions, len, field, words, count)
      ensures ok ==> Agree(old(regions), regions, {field, field + 4})
    {
      hide Laid, Le32, U32, Slots, HasWords;
      if |words| == 0 {
        return true;
      }
      var n := |words|;
      var vec := ReserveVec(field, n, count);
      if vec.None? {
        return false;
      }
      ghost var r2 := regions;
      for i := 0 to n
        invariant Valid() && len == vec.value + 4 * n
        invariant HasWords(regions, vec.value, n) && Agree(r2, regions, Slots(vec.value, n))
        invariant forall j :: 0 <= j < i ==> WordAt(regions, vec.value + 4 * j, words[j])
      {
        HasWordsAt(regions, vec.value, n, i);
        ghost var r := regions;
        Patch(vec.value + 4 * i, words[i]);
        HasWordsKept(r, regions, {vec.value + 4 * i}, vec.value, n);
        AgreeTrans(r2, r, regions, Slots(vec.value, n), {vec.value + 4 * i}, Slots(vec.value, n));
      }
      SlotsAbove(old(bytes[..]), old(len), old(regions), vec.value, n);
      AgreeTrans(old(regions), r2, regions, {field, field + 4}, Slots(vec.value, n), {field, field + 4});
      assert field in r2 && field + 4 in r2;
      return true;
    }
  }

  /** The first `i` strings have their spans in the vector at `vec`. */
  ghost predicate SpansAt(r: Regions, len: nat, vec: nat, lo: nat, strings: seq<Data>, i: nat) {
    i <= |strings| && forall j :: 0 <= j < i ==> SpanAt(r, len, vec + 8 * j, lo, strings[j])
  }

  lemma NoSpans(r: Regions, len: nat, vec: nat, lo: nat, strings: seq<Data>)
    ensures SpansAt(r, len, vec, lo, strings, 0)
    ensures StringsLen(lo, strings[..0]) == lo
    ensures Agree(r, r, {}) && forall s :: Agree(r, r, s)
  {
  }

  lemma AllSpans(r: Regions, len: nat, vec: nat, lo: nat, strings: seq<Data>)
    requires SpansAt(r, len, vec, lo, strings, |strings|)
    ensures forall j :: 0 <= j < |strings| ==> SpanAt(r, len, vec + 8 * j, lo, strings[j])
  {
  }

  lemma SpansKeep(r: Regions, len: nat, r': Regions, len': nat, vec: nat, lo: nat, strings: seq<Data>, i: nat)
    requires SpansAt(r, len, vec, lo, strings, i) && i < |strings| && len <= len' && lo >= vec + 8 * |strings|
    requires Agree(r, r', {vec + 8 * i, vec + 8 * i + 4}) && SpanAt(r', len', vec + 8 * i, lo, strings[i])
    ensures SpansAt(r', len', vec, lo, strings, i + 1)
  {
    forall j | 0 <= j < i ensures SpanAt(r', len', vec + 8 * j, lo, strings[j]) {
      SpanKeeps(r, len, r', len', {vec + 8 * i, vec + 8 * i + 4}, vec + 8 * j, lo, strings[j]);
    }
  }

  lemma StringsLenStep(lo: nat, strings: seq<Data>, i: nat)
    requires i < |strings|
    ensures StringsLen(lo, strings[..i + 1]) == Align(StringsLen(lo, strings[..i])) + |strings[i]|
    ensures StringsLen(lo, strings[..i + 1]) <= StringsLen(lo, strings)
  {
    assert strings[..i + 1][..i] == strings[..i];
    StringsLenPrefix(lo, strings, i + 1);
  }

  /** The offsets of `n` words from `from` on. */
  ghost function Slots(from: nat, n: nat): set<nat>
    requires from % 4 == 0
  {
    Words(from, n).Keys
  }

  ghost predicate HasWords(r: Regions, from: nat, n: nat)
    requires from % 4 == 0
  {
    forall o :: o in Slots(from, n) ==> IsWord(r, o)
  }

  lemma HasWordsAt(r: Regions, from: nat, n: nat, k: nat)
    requires from % 4 == 0 && HasWords(r, from, n) && k < n
    ensures from + 4 * k in Slots(from, n) && IsWord(r, from + 4 * k)
  {
    WordIn(from, n, k);
  }

  lemma HasWordsKept(r: Regions, r': Regions, fields: set<nat>, from: nat, n: nat)
    requires from % 4 == 0 && HasWords(r, from, n) && Agree(r, r', fields)
    ensures HasWords(r', from, n)
  {
  }

  lemma SlotsAbove(b: Data, len: nat, r: Regions, from: nat, n: nat)
    requires Laid(b, len, r) && from == Align(len)
    ensures forall o :: o in r ==> o !in Slots(from, n)
  {
  }

  /** Reserved words take no key that was there. */
  lemma ReserveKeys(r: Regions, n: nat, off: nat, b: Data, len: nat)
    requires Laid(b, len, r) && off == Align(len)
    ensures forall o :: o in r ==> o < off
    ensures Agree(r, r + Words(off, n), {})
  {
  }

  /** An appended region takes no key that was there. */
  lemma AppendKeys(r: Regions, data: Data, off: nat, b: Data, len: nat)
    requires Laid(b, len, r) && off == Align(len)
    ensures off !in r
  {
  }

  lemma WordValue(v: u32)
    ensures U32(Le32(v), 0) == v
  {
    assert Has(Le32(v), 0, Le32(v)) by { assert Le32(v)[0..4] == Le32(v); }
    U32OfLe32(Le32(v), 0, v);
  }
}
