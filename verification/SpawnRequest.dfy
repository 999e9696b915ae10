/**
 * The whole spawn request: the fields of the record in the order the C library
 * writes them, and what standing in the buffer they say.
 */
module SpawnRequest {
  import opened Wrappers
  import opened Bytes
  import opened SpawnRecord

  const EQUALS: byte := 61

  /**
   * What posix_spawn sends: `argv` is empty for a null argument vector, `env`
   * holds the raw entries of the environment, the descriptors come from the file
   * actions.
   */
  datatype Request = Request(
    prog: Data,
    argv: seq<Data>,
    env: seq<Data>,
    cwd: Option<Data>,
    stdio: seq<int>,
    pass: seq<int>,
    fdMap: seq<(int, int)>) {

    function Args(): seq<Data> { if argv == [] then [] else argv[1..] }

    function Cwd(): Data { if cwd.Some? then cwd.value else [] }
  }

  predicate Sendable(q: Request) {
    && |q.argv| < U32_LIMIT && |q.env| < U32_LIMIT && |q.pass| < U32_LIMIT && |q.fdMap| < U32_LIMIT
    && |q.stdio| == 3 && (forall i :: 0 <= i < 3 ==> Is32(q.stdio[i]))
    && (forall i :: 0 <= i < |q.pass| ==> Is32(q.pass[i]))
    && (forall i :: 0 <= i < |q.fdMap| ==> Is32(q.fdMap[i].0) && Is32(q.fdMap[i].1))
  }

  // ---- The environment ----

  /** strchr(e, '='), or the length of `e`. */
  function FirstEquals(e: Data, from: nat): (i: nat)
    requires from <= |e|
    ensures from <= i <= |e| && (i < |e| ==> e[i] == EQUALS)
    ensures forall k :: from <= k < i ==> e[k] != EQUALS
    decreases |e| - from
  {
    if from == |e| || e[from] == EQUALS then from else FirstEquals(e, from + 1)
  }

  /** The pair of an entry, split at the first `=`; none without one. */
  function PairOf(e: Data): (r: seq<(Data, Data)>)
    ensures |r| <= 1
  {
    var eq := FirstEquals(e, 0);
    if eq < |e| then [(e[..eq], e[eq + 1..])] else []
  }

  /** The entries that have a `=`, split at the first one. */
  function EnvPairs(env: seq<Data>): (r: seq<(Data, Data)>)
    ensures |r| <= |env|
  {
    if env == [] then [] else PairOf(env[0]) + EnvPairs(env[1..])
  }

  /** An entry gives a pair exactly when it has an equals sign, and the pair joins back to the entry. */
  lemma EnvEntry(e: Data)
    ensures EQUALS !in e ==> EnvPairs([e]) == []
    ensures EQUALS in e ==>
              |EnvPairs([e])| == 1 && var (k, v) := EnvPairs([e])[0]; e == k + [EQUALS] + v && EQUALS !in k
  {
    var eq := FirstEquals(e, 0);
    assert [e][1..] == [];
    if eq < |e| { assert e == e[..eq] + [EQUALS] + e[eq + 1..]; }
  }

  /** Entries are taken one by one, in order. */
  lemma {:induction false} EnvAppend(a: seq<Data>, b: seq<Data>)
    ensures EnvPairs(a + b) == EnvPairs(a) + EnvPairs(b)
    decreases |a|
  {
    if a == [] {
      assert a + b == b;
    } else {
      hide PairOf;
      EnvAppend(a[1..], b);
      var own, more, rest := PairOf(a[0]), EnvPairs(a[1..]), EnvPairs(b);
      assert (a + b)[0] == a[0] && (a + b)[1..] == a[1..] + b;
      assert own + (more + rest) == own + more + rest;
    }
  }

  /** Keys and values in turn. */
  function Flat(pairs: seq<(Data, Data)>): (r: seq<Data>)
    ensures |r| == 2 * |pairs|
    ensures forall i :: 0 <= i < |pairs| ==> r[2 * i] == pairs[i].0 && r[2 * i + 1] == pairs[i].1
  {
    if pairs == [] then [] else
    var rest := Flat(pairs[..|pairs| - 1]);
    rest + [pairs[|pairs| - 1].0, pairs[|pairs| - 1].1]
  }

  function PassWords(pass: seq<int>): (r: seq<u32>)
    requires forall i :: 0 <= i < |pass| ==> Is32(pass[i])
    ensures |r| == |pass| && forall i :: 0 <= i < |pass| ==> r[i] == AsU32(pass[i])
  {
    seq(|pass|, i requires 0 <= i < |pass| => AsU32(pass[i]))
  }

  function MapWords(fdMap: seq<(int, int)>): (r: seq<u32>)
    requires forall i :: 0 <= i < |fdMap| ==> Is32(fdMap[i].0) && Is32(fdMap[i].1)
    ensures |r| == 2 * |fdMap|
    ensures forall i :: 0 <= i < |fdMap| ==> r[2 * i] == AsU32(fdMap[i].0) && r[2 * i + 1] == AsU32(fdMap[i].1)
  {
    if fdMap == [] then [] else
    var rest := MapWords(fdMap[..|fdMap| - 1]);
    rest + [AsU32(fdMap[|fdMap| - 1].0), AsU32(fdMap[|fdMap| - 1].1)]
  }

  // ---- The fields ----

  /** Offset of the j-th variable field: prog, argv0, args, env, cwd, pass_fds, fd_map. */
  function Pos(j: int): nat
    requires 1 <= j <= 7
  {
    if j == 1 then 8 else if j == 2 then 16 else if j == 3 then 24 else if j == 4 then 32
    else if j == 5 then 40 else if j == 6 then 60 else 80
  }

  /** argv[0] is written even when empty, and left out of a null vector. */
  ghost predicate Argv0At(r: Regions, len: nat, argv: seq<Data>) {
    if argv == [] then WordAt(r, 16, 0) && WordAt(r, 20, 0) else SpanAt(r, len, 16, HEADER, argv[0])
  }

  ghost predicate FieldOk(r: Regions, len: nat, q: Request, j: int)
    requires 1 <= j <= 7 && Sendable(q)
  {
    if j == 1 then OptSpan(r, len, 8, q.prog)
    else if j == 2 then Argv0At(r, len, q.argv)
    else if j == 3 then VecAt(r, len, 24, q.Args(), |q.Args()|)
    else if j == 4 then VecAt(r, len, 32, Flat(EnvPairs(q.env)), |EnvPairs(q.env)|)
    else if j == 5 then OptSpan(r, len, 40, q.Cwd())
    else if j == 6 then WordsAt(r, len, 60, PassWords(q.pass), |q.pass|)
    else WordsAt(r, len, 80, MapWords(q.fdMap), |q.fdMap|)
  }

  ghost predicate FixedOk(r: Regions, q: Request)
    requires Sendable(q)
  {
    && IsWord(r, 0) && WordAt(r, 4, 1)
    && WordAt(r, 48, AsU32(q.stdio[0])) && WordAt(r, 52, AsU32(q.stdio[1])) && WordAt(r, 56, AsU32(q.stdio[2]))
    && WordAt(r, 68, 0) && WordAt(r, 72, 0) && WordAt(r, 76, 0)
  }

  /** The first `k` variable fields are written and the others still zero. */
  ghost predicate Fields(r: Regions, len: nat, q: Request, k: int)
    requires Sendable(q)
  {
    && FixedOk(r, q)
    && (forall j :: 1 <= j <= 7 && j <= k ==> FieldOk(r, len, q, j))
    && (forall j :: 1 <= j <= 7 && k < j ==> WordAt(r, Pos(j), 0) && WordAt(r, Pos(j) + 4, 0))
  }

  lemma FieldKeeps(r: Regions, len: nat, r': Regions, len': nat, q: Request, j: int, fields: set<nat>)
    requires 1 <= j <= 7 && Sendable(q) && FieldOk(r, len, q, j) && Agree(r, r', fields) && len <= len'
    requires Pos(j) !in fields && Pos(j) + 4 !in fields && forall f :: f in fields ==> f < HEADER
    ensures FieldOk(r', len', q, j)
  {
    hide SpanAt, VecAt, WordsAt, Agree, WordAt, Flat, EnvPairs, PassWords, MapWords;
    if j == 1 {
      OptSpanKeeps(r, len, r', len', fields, 8, q.prog);
    } else if j == 2 {
      Argv0Keeps(r, len, r', len', q.argv, fields);
    } else if j == 3 {
      VecKeeps(r, len, r', len', fields, 24, q.Args(), |q.Args()|);
    } else if j == 4 {
      VecKeeps(r, len, r', len', fields, 32, Flat(EnvPairs(q.env)), |EnvPairs(q.env)|);
    } else if j == 5 {
      OptSpanKeeps(r, len, r', len', fields, 40, q.Cwd());
    } else if j == 6 {
      WordsKeep(r, len, r', len', fields, 60, PassWords(q.pass), |q.pass|);
    } else {
      WordsKeep(r, len, r', len', fields, 80, MapWords(q.fdMap), |q.fdMap|);
    }
  }

  lemma Argv0Keeps(r: Regions, len: nat, r': Regions, len': nat, argv: seq<Data>, fields: set<nat>)
    requires Argv0At(r, len, argv) && Agree(r, r', fields) && len <= len'
    requires 16 !in fields && 20 !in fields && forall f :: f in fields ==> f < HEADER
    ensures Argv0At(r', len', argv)
  {
    if argv != [] { SpanKeeps(r, len, r', len', fields, 16, HEADER, argv[0]); }
  }

  lemma FixedKeeps(r: Regions, r': Regions, q: Request, fields: set<nat>)
    requires Sendable(q) && FixedOk(r, q) && Agree(r, r', fields)
    requires forall f :: f in {4, 48, 52, 56, 68, 72, 76} ==> f !in fields
    ensures FixedOk(r', q)
  {
    hide Sendable;
  }

  lemma ZeroKeeps(r: Regions, r': Regions, k: int, j: int)
    requires 1 <= k < j <= 7 && WordAt(r, Pos(j), 0) && WordAt(r, Pos(j) + 4, 0)
    requires Agree(r, r', {Pos(k), Pos(k) + 4})
    ensures WordAt(r', Pos(j), 0) && WordAt(r', Pos(j) + 4, 0)
  {
  }

  /** Writing the k-th field keeps the others. */
  lemma FieldsStep(r: Regions, len: nat, r': Regions, len': nat, q: Request, k: int)
    requires 1 <= k <= 7 && Sendable(q) && Fields(r, len, q, k - 1) && len <= len'
    requires Agree(r, r', {Pos(k), Pos(k) + 4}) && FieldOk(r', len', q, k)
    ensures Fields(r', len', q, k)
  {
    hide FieldOk, Agree, WordAt, FixedOk, Sendable;
    FixedKeeps(r, r', q, {Pos(k), Pos(k) + 4});
    forall j | 1 <= j <= 7 && j <= k ensures FieldOk(r', len', q, j) {
      if j < k { FieldKeeps(r, len, r', len', q, j, {Pos(k), Pos(k) + 4}); }
    }
    forall j | 1 <= j <= 7 && k < j ensures WordAt(r', Pos(j), 0) && WordAt(r', Pos(j) + 4, 0) {
      ZeroKeeps(r, r', k, j);
    }
  }

  // ---- The record ----

  /** `b` is the record of `q`, its strings and vectors the regions `r`. */
  ghost predicate Encodes(b: Data, r: Regions, q: Request)
    requires Sendable(q)
  {
    Laid(b, |b|, r) && HEADER <= |b| <= CAP && WordAt(r, 0, |b|) && Fields(r, |b|, q, 7)
  }

  /** The length of the record after the first `k` variable fields. */
  function LenAfter(q: Request, k: int): (l: nat)
    requires Sendable(q) && 0 <= k <= 7
    ensures l >= HEADER && (k > 0 ==> l >= LenAfter(q, k - 1))
  {
    if k == 0 then HEADER else
    var l := LenAfter(q, k - 1);
    if k == 1 then SpanLen(l, q.prog)
    else if k == 2 then if q.argv == [] then l else Align(l) + |q.argv[0]|
    else if k == 3 then VecLen(l, q.Args())
    else if k == 4 then VecLen(l, Flat(EnvPairs(q.env)))
    else if k == 5 then SpanLen(l, q.Cwd())
    else if k == 6 then WordsLen(l, PassWords(q.pass))
    else WordsLen(l, MapWords(q.fdMap))
  }

  lemma {:induction false} LenGrows(q: Request, k: int, n: int)
    requires Sendable(q) && 0 <= k <= n <= 7
    ensures LenAfter(q, k) <= LenAfter(q, n)
  {
    hide SpanLen, VecLen, WordsLen, Flat, EnvPairs, PassWords, MapWords, Sendable;
    if k >= n {
    } else {
      LenGrows(q, k, n - 1);
    }
  }

  /** The buffer as calloc and the fixed stores leave it. */
  method StartRecord(q: Request) returns (b: RecordBuilder)
    requires Sendable(q)
    ensures fresh(b) && fresh(b.bytes) && Written(b, q, 0)
  {
    hide Laid, Le32, Words, Fields, WordAt;
    b := new RecordBuilder();
    ghost var r := b.regions;
    HeaderIsWords(r);
    b.Patch(4, 1);
    b.Patch(48, AsU32(q.stdio[0]));
    b.Patch(52, AsU32(q.stdio[1]));
    b.Patch(56, AsU32(q.stdio[2]));
    StartFields(r, b.regions, q);
  }

  lemma HeaderIsWords(r: Regions)
    requires r == Words(0, HEADER / 4)
    ensures IsWord(r, 4) && IsWord(r, 48) && IsWord(r, 52) && IsWord(r, 56)
  {
    hide Words, Le32;
    HeaderWords(r);
  }

  lemma StartFields(r: Regions, r': Regions, q: Request)
    requires Sendable(q) && r == Words(0, HEADER / 4)
    requires r' == r[4 := Le32(1)][48 := Le32(AsU32(q.stdio[0]))][52 := Le32(AsU32(q.stdio[1]))]
                    [56 := Le32(AsU32(q.stdio[2]))]
    ensures Fields(r', HEADER, q, 0)
  {
    hide Words, Le32, FieldOk, Sendable;
    HeaderWords(r);
  }

  lemma HeaderWords(r: Regions)
    requires r == Words(0, HEADER / 4)
    ensures WordAt(r, 0, 0) && WordAt(r, 4, 0) && WordAt(r, 48, 0) && WordAt(r, 52, 0) && WordAt(r, 56, 0)
    ensures WordAt(r, 68, 0) && WordAt(r, 72, 0) && WordAt(r, 76, 0)
    ensures forall j :: 1 <= j <= 7 ==> WordAt(r, Pos(j), 0) && WordAt(r, Pos(j) + 4, 0)
  {
    forall p | p % 4 == 0 && 0 <= p < HEADER ensures WordAt(r, p, 0) {
      WordIn(0, HEADER / 4, p / 4);
    }
    hide WordAt;
  }

  /** Where the builder stands after the first `k` variable fields. */
  ghost predicate Written(b: RecordBuilder, q: Request, k: int)
    requires Sendable(q) && 0 <= k <= 7
    reads b, b.bytes
  {
    b.Valid() && b.len == LenAfter(q, k) && Fields(b.regions, b.len, q, k)
  }

  lemma ZeroField(r: Regions, len: nat, q: Request, k: int)
    requires Sendable(q) && 1 <= k <= 7 && Fields(r, len, q, k - 1)
    ensures WordAt(r, Pos(k), 0) && WordAt(r, Pos(k) + 4, 0)
    ensures IsWord(r, Pos(k)) && IsWord(r, Pos(k) + 4) && Agree(r, r, {Pos(k), Pos(k) + 4})
  {
    hide FieldOk;
  }

  /** Writes the next variable field. */
  method PutField(b: RecordBuilder, q: Request, k: int) returns (ok: bool)
    requires Sendable(q) && 1 <= k <= 7 && Written(b, q, k - 1)
    modifies b, b.bytes
    ensures ok <==> LenAfter(q, k) <= CAP
    ensures ok ==> Written(b, q, k)
  {
    hide Laid, Le32, U32, Agree, WordAt, IsWord, SpanAt, VecAt, WordsAt, OptSpan, EnvPairs, Flat, PassWords, MapWords,
      Fields, SpanLen, VecLen, WordsLen;
    ZeroField(b.regions, b.len, q, k);
    ghost var r, l := b.regions, b.len;
    if k == 1 {
      ok := b.PutSpan(8, q.prog);
    } else if k == 2 {
      ok := true;
      if |q.argv| > 0 { ok := b.PutString(16, HEADER, q.argv[0]); }
    } else if k == 3 {
      ok := b.PutStringVec(24, q.Args(), |q.Args()|);
    } else if k == 4 {
      var pairs := EnvPairs(q.env);
      ok := b.PutStringVec(32, Flat(pairs), |pairs|);
    } else if k == 5 {
      ok := b.PutSpan(40, q.Cwd());
    } else if k == 6 {
      ok := b.PutWords(60, PassWords(q.pass), |q.pass|);
    } else {
      ok := b.PutWords(80, MapWords(q.fdMap), |q.fdMap|);
    }
    if ok {
      LenGrows(q, k - 1, k);
      FieldsStep(r, l, b.regions, b.len, q, k);
    }
  }

  /** The record of a request, or nothing when it does not fit the buffer. */
  method BuildRecord(q: Request) returns (record: Option<Data>, ghost r: Regions)
    requires Sendable(q)
    ensures record.Some? <==> LenAfter(q, 7) <= CAP
    ensures record.Some? ==> |record.value| == LenAfter(q, 7) && Encodes(record.value, r, q)
  {
    hide Laid, WordAt, Fields, LenAfter, Le32, Sendable;
    var b := StartRecord(q);
    var ok := PutField(b, q, 1);
    if ok { ok := PutField(b, q, 2); }
    if ok { ok := PutField(b, q, 3); }
    if ok { ok := PutField(b, q, 4); }
    if ok { ok := PutField(b, q, 5); }
    if ok { ok := PutField(b, q, 6); }
    if ok { ok := PutField(b, q, 7); }
    r := b.regions;
    forall k | 0 <= k <= 7 ensures LenAfter(q, k) <= LenAfter(q, 7) { LenGrows(q, k, 7); }
    if !ok {
      return None, r;
    }
    SizeField(b.regions, b.len, q);
    ghost var was := b.regions;
    b.Patch(0, b.len);
    r := b.regions;
    SizeWritten(was, r, b.len, q);
    LaidSlice(b.bytes[..], b.len, r);
    return Some(b.bytes[..b.len]), r;
  }

  lemma SizeField(r: Regions, len: nat, q: Request)
    requires Sendable(q) && Fields(r, len, q, 7)
    ensures IsWord(r, 0)
  {
  }

  lemma SizeWritten(r: Regions, r': Regions, len: nat, q: Request)
    requires Sendable(q) && Fields(r, len, q, 7) && len < U32_LIMIT && r' == r[0 := Le32(len)]
    ensures Fields(r', len, q, 7) && WordAt(r', 0, len)
  {
    hide FieldOk, FixedOk, Sendable;
    assert Agree(r, r', {0}) by { SizeField(r, len, q); }
    FixedKeeps(r, r', q, {0});
    forall j | 1 <= j <= 7 ensures FieldOk(r', len, q, j) { FieldKeeps(r, len, r', len, q, j, {0}); }
  }

  lemma LaidSlice(b: Data, len: nat, r: Regions)
    requires Laid(b, len, r)
    ensures Laid(b[..len], len, r)
  {
    LaidKeep(b, len, r, b[..len], len);
  }

  // ---- How much fits ----

  function Payload(strings: seq<Data>): nat {
    if strings == [] then 0 else Payload(strings[..|strings| - 1]) + |strings[|strings| - 1]|
  }

  lemma {:induction false} StringsLenBounds(len: nat, strings: seq<Data>)
    ensures len + Payload(strings) <= StringsLen(len, strings) <= len + Payload(strings) + 3 * |strings|
  {
    if strings == [] {
    } else {
      StringsLenBounds(len, strings[..|strings| - 1]);
    }
  }

  lemma VecLenBounds(len: nat, strings: seq<Data>)
    ensures var n := 8 * |strings| + Payload(strings);
            len + n <= VecLen(len, strings) <= len + n + 3 * |strings| + 3
  {
    hide StringsLen, Payload;
    StringsLenBounds(Align(len) + 8 * |strings|, strings);
    if strings == [] { NoPayload(); }
  }

  lemma NoPayload()
    ensures Payload([]) == 0
  {
  }

  /** The bytes of the k-th variable field. */
  function FieldSize(q: Request, k: int): nat
    requires 1 <= k <= 7
  {
    if k == 1 then |q.prog|
    else if k == 2 then (if q.argv == [] then 0 else |q.argv[0]|)
    else if k == 3 then (if q.argv == [] then 0 else 8 * (|q.argv| - 1) + Payload(q.argv[1..]))
    else if k == 4 then 16 * |EnvPairs(q.env)| + Payload(Flat(EnvPairs(q.env)))
    else if k == 5 then (if q.cwd.Some? then |q.cwd.value| else 0)
    else if k == 6 then 4 * |q.pass|
    else 8 * |q.fdMap|
  }

  /** The pieces it consists of. */
  function Pieces(q: Request, k: int): nat
    requires 1 <= k <= 7
  {
    if k == 3 then 1 + |q.argv| else if k == 4 then 1 + 2 * |EnvPairs(q.env)| else 1
  }

  lemma FieldLen(q: Request, k: int)
    requires Sendable(q) && 1 <= k <= 7
    ensures LenAfter(q, k - 1) + FieldSize(q, k) <= LenAfter(q, k)
    ensures LenAfter(q, k) <= LenAfter(q, k - 1) + FieldSize(q, k) + 3 * Pieces(q, k)
  {
    hide VecLen, Payload, Flat, EnvPairs, PassWords, MapWords;
    NoPayload();
    var l := LenAfter(q, k - 1);
    if k == 3 {
      VecLenBounds(l, q.Args());
    } else if k == 4 {
      VecLenBounds(l, Flat(EnvPairs(q.env)));
    }
  }

  function SizeTo(q: Request, k: int): nat
    requires 0 <= k <= 7
  {
    if k == 0 then 88 else SizeTo(q, k - 1) + FieldSize(q, k)
  }

  function PiecesTo(q: Request, k: int): nat
    requires 0 <= k <= 7
  {
    if k == 0 then 0 else PiecesTo(q, k - 1) + Pieces(q, k)
  }

  /**
   * The record is as long as the fixed part, its strings and the entries of its
   * vectors, with up to three bytes of padding before each piece.
   */
  lemma {:induction false} LengthIsSize(q: Request, k: int)
    requires Sendable(q) && 0 <= k <= 7
    ensures SizeTo(q, k) <= LenAfter(q, k) <= SizeTo(q, k) + 3 * PiecesTo(q, k)
  {
    hide Sendable, FieldSize, Pieces;
    if k == 0 {
    } else {
      LengthIsSize(q, k - 1);
      FieldLen(q, k);
    }
  }
}
