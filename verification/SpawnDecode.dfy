/**
 * The two readers of a spawn request record: the native host's, which reads
 * every field, and the JavaScript host's, which reads the program and its
 * arguments. What they return for a record the C library built, and when they
 * agree on any byte string at all.
 */
module SpawnDecode {
  import opened Wrappers
  import opened Sequences
  import opened Bytes
  import opened SpawnRecord
  import opened SpawnRequest


  // ---- The native reader ----

  datatype Native = Native(
    prog: Data,
    argv0: Option<Data>,
    args: seq<Data>,
    env: seq<(Data, Data)>,
    cwd: Option<Data>,
    stdio: seq<int>,
    pass: seq<int>,
    fdMap: seq<(int, int)>,
    stdinData: Option<Data>,
    nice: int)

  function ReadU32(b: Data, off: nat): Result<u32> {
    if off + 4 <= |b| then Ok(U32(b, off)) else Err(EINVAL)
  }

  function ReadI32(b: Data, off: nat): Result<int> {
    match ReadU32(b, off)
    case Err(e) => Err(e)
    case Ok(n) => Ok(AsI32(n))
  }

  function ReadSpan(b: Data, pos: nat): (r: Result<(nat, nat)>)
    ensures r.Ok? ==> r.value.0 + r.value.1 <= |b|
  {
    if pos + 8 > |b| then Err(EINVAL) else
    var off, len := U32(b, pos), U32(b, pos + 4);
    if off == 0 && len == 0 then Ok((0, 0))
    else if off % 4 != 0 then Err(EINVAL)
    else if off + len > |b| then Err(EOVERFLOW)
    else Ok((off, len))
  }

  function ReadString(b: Data, pos: nat): Result<Data> {
    match ReadSpan(b, pos)
    case Err(e) => Err(e)
    case Ok((off, len)) => Ok(b[off..off + len])
  }

  function ReadRequired(b: Data, pos: nat): Result<Data> {
    match ReadSpan(b, pos)
    case Err(e) => Err(e)
    case Ok((off, len)) => if len == 0 then Err(EINVAL) else Ok(b[off..off + len])
  }

  function ReadOptional(b: Data, pos: nat): Result<Option<Data>> {
    if pos + 8 > |b| then Err(EINVAL) else
    var off, len := U32(b, pos), U32(b, pos + 4);
    if off == 0 && len == 0 then Ok(None)
    else if off % 4 != 0 then Err(EINVAL)
    else if off + len > |b| then Err(EOVERFLOW)
    else Ok(Some(b[off..off + len]))
  }

  function ReadPair(b: Data, pos: nat): Result<(Data, Data)> {
    match ReadRequired(b, pos)
    case Err(e) => Err(e)
    case Ok(key) =>
      match ReadString(b, pos + 8)
      case Err(e) => Err(e)
      case Ok(value) => Ok((key, value))
  }

  function ReadFds(b: Data, pos: nat): Result<(int, int)> {
    match ReadI32(b, pos)
    case Err(e) => Err(e)
    case Ok(parent) =>
      match ReadI32(b, pos + 4)
      case Err(e) => Err(e)
      case Ok(child) => Ok((parent, child))
  }

  /** `count` entries of `stride` bytes from `at` on, up to the first that fails. */
  function ReadEach<T>(b: Data, at: nat, stride: nat, count: nat, read: (Data, nat) -> Result<T>): (r: Result<seq<T>>)
    ensures r.Ok? ==> |r.value| == count
    decreases count
  {
    if count == 0 then Ok([]) else
    match read(b, at)
    case Err(e) => Err(e)
    case Ok(x) =>
      match ReadEach(b, at + stride, stride, count - 1, read)
      case Err(e) => Err(e)
      case Ok(xs) => Ok([x] + xs)
  }

  /** The vector whose offset and count stand at `field`. */
  function ReadVec<T>(b: Data, field: nat, stride: nat, read: (Data, nat) -> Result<T>): Result<seq<T>> {
    if field + 8 > |b| then Err(EINVAL) else
    var vec, count := U32(b, field), U32(b, field + 4);
    if count == 0 then Ok([])
    else if vec == 0 || vec % 4 != 0 then Err(EINVAL)
    else if vec + count * stride > |b| then Err(EOVERFLOW)
    else ReadEach(b, vec, stride, count, read)
  }

  /** The header checks both readers make; the length the record claims. */
  function RecordSize(b: Data): (r: Result<nat>)
    ensures r.Ok? ==> HEADER <= r.value <= |b|
  {
    if |b| < HEADER then Err(EINVAL) else
    var size := U32(b, 0);
    if b[4] != 1 || b[5] != 0 || size < HEADER then Err(EINVAL)
    else if size > |b| then Err(EOVERFLOW)
    else Ok(size)
  }

  function NativeDecode(b: Data): Result<Native> {
    match RecordSize(b)
    case Err(e) => Err(e)
    case Ok(size) => NativeFields(b[..size])
  }

  function NativeFields(b: Data): Result<Native>
    requires HEADER <= |b|
  {
    match ReadRequired(b, 8)
    case Err(e) => Err(e)
    case Ok(prog) =>
      match ReadOptional(b, 16)
      case Err(e) => Err(e)
      case Ok(argv0) =>
        match ReadOptional(b, 40)
        case Err(e) => Err(e)
        case Ok(cwd) =>
          match ReadOptional(b, 68)
          case Err(e) => Err(e)
          case Ok(stdinData) => NativeVectors(b, prog, argv0, cwd, stdinData)
  }

  function NativeVectors(b: Data, prog: Data, argv0: Option<Data>, cwd: Option<Data>,
                         stdinData: Option<Data>): Result<Native>
    requires HEADER <= |b|
  {
    match ReadVec(b, 24, 8, ReadString)
    case Err(e) => Err(e)
    case Ok(args) =>
      match ReadVec(b, 32, 16, ReadPair)
      case Err(e) => Err(e)
      case Ok(env) =>
        match ReadVec(b, 60, 4, ReadI32)
        case Err(e) => Err(e)
        case Ok(pass) =>
          match ReadVec(b, 80, 8, ReadFds)
          case Err(e) => Err(e)
          case Ok(fdMap) =>
            var stdio := [AsI32(U32(b, 48)), AsI32(U32(b, 52)), AsI32(U32(b, 56))];
            Ok(Native(prog, argv0, args, env, cwd, stdio, pass, fdMap, stdinData, AsI32(U32(b, 76))))
  }

  // ---- The JavaScript reader ----

  datatype Host = Host(prog: Data, argv0: Option<Data>, args: seq<Data>)

  /** readString: absent, an error, or the bytes. */
  function HostString(b: Data, size: nat, pos: nat): Result<Option<Data>>
    requires pos + 8 <= size <= |b|
  {
    var off, len := U32(b, pos), U32(b, pos + 4);
    if off == 0 && len == 0 then Ok(None)
    else if off % 4 != 0 then Err(EINVAL)
    else if off + len > size then Err(EOVERFLOW)
    else Ok(Some(b[off..off + len]))
  }

  function HostArg(b: Data, size: nat, pos: nat): Result<Data>
    requires pos + 8 <= size <= |b|
  {
    var off, len := U32(b, pos), U32(b, pos + 4);
    if off % 4 != 0 then Err(EINVAL)
    else if off + len > size then Err(EOVERFLOW)
    else Ok(b[off..off + len])
  }

  /** The arguments from the i-th on. */
  function HostArgs(b: Data, size: nat, vec: nat, count: nat, i: nat): (r: Result<seq<Data>>)
    requires i <= count && vec + 8 * count <= size <= |b|
    decreases count - i
  {
    if i == count then Ok([]) else
    match HostArg(b, size, vec + 8 * i)
    case Err(e) => Err(e)
    case Ok(arg) =>
      match HostArgs(b, size, vec, count, i + 1)
      case Err(e) => Err(e)
      case Ok(rest) => Ok([arg] + rest)
  }

  function HostArgVec(b: Data, size: nat): Result<seq<Data>>
    requires HEADER <= size <= |b|
  {
    var vec, count := U32(b, 24), U32(b, 28);
    if count > 0 && vec == 0 then Err(EINVAL)
    else if count > 0 && vec % 4 != 0 then Err(EINVAL)
    else if count == 0 then Ok([])
    else if vec + count * 8 > size then Err(EOVERFLOW)
    else HostArgs(b, size, vec, count, 0)
  }

  /** The fields the JavaScript host takes from a record, or its error. */
  function HostDecode(b: Data): Result<Host> {
    match RecordSize(b)
    case Err(e) => Err(e)
    case Ok(size) =>
      match HostString(b, size, 8)
      case Err(e) => Err(e)
      case Ok(prog) =>
        if prog.None? || prog.value == [] then Err(EINVAL) else
        match HostString(b, size, 16)
        case Err(e) => Err(e)
        case Ok(argv0) =>
          match HostArgVec(b, size)
          case Err(e) => Err(e)
          case Ok(args) => Ok(Host(prog.value, argv0, args))
  }

  lemma HostArgsStep(b: Data, size: nat, vec: nat, count: nat, i: nat, args: seq<Data>)
    requires i < count && vec + 8 * count <= size <= |b|
    ensures After(args, HostArgs(b, size, vec, count, i)) ==
            match HostArg(b, size, vec + 8 * i)
            case Err(e) => Err(e)
            case Ok(arg) => After(args + [arg], HostArgs(b, size, vec, count, i + 1))
  {
    hide HostArg;
    var rest := HostArgs(b, size, vec, count, i + 1);
    var x := HostArg(b, size, vec + 8 * i);
    if rest.Ok? && x.Ok? { assert args + ([x.value] + rest.value) == args + [x.value] + rest.value; }
  }

  /** The loop over the argument spans. */
  method ReadHostArgs(b: Data, size: nat, vec: nat, count: nat) returns (r: Result<seq<Data>>)
    requires vec + 8 * count <= size <= |b|
    ensures r == HostArgs(b, size, vec, count, 0)
  {
    hide After, U32;
    var args: seq<Data> := [];
    var i := 0;
    ghost var all := HostArgs(b, size, vec, count, 0);
    AfterNothing(all, args);
    while i < count
      invariant 0 <= i <= count
      invariant After(args, HostArgs(b, size, vec, count, i)) == all
    {
      HostArgsStep(b, size, vec, count, i, args);
      var at := vec + i * 8;
      var off, len := U32(b, at), U32(b, at + 4);
      if off % 4 != 0 {
        return Err(EINVAL);
      }
      if off + len > size {
        return Err(EOVERFLOW);
      }
      args := args + [b[off..off + len]];
      i := i + 1;
    }
    AfterNothing(all, args);
    return Ok(args);
  }

  /** host_spawn up to the system call. */
  method ReadHostRequest(b: Data) returns (r: Result<Host>)
    ensures r == HostDecode(b)
  {
    hide U32, HostArgs;
    if |b| < HEADER {
      return Err(EINVAL);
    }
    var size := U32(b, 0);
    if b[4] != 1 || b[5] != 0 || size < HEADER {
      return Err(EINVAL);
    }
    if size > |b| {
      return Err(EOVERFLOW);
    }
    var prog := HostString(b, size, 8);
    if prog.Err? {
      return Err(prog.errno);
    }
    if prog.value.None? || prog.value.value == [] {
      return Err(EINVAL);
    }
    var argv0 := HostString(b, size, 16);
    if argv0.Err? {
      return Err(argv0.errno);
    }
    var vec, count := U32(b, 24), U32(b, 28);
    if count > 0 && (vec == 0 || vec % 4 != 0) {
      return Err(EINVAL);
    }
    var args := Ok([]);
    if count > 0 {
      if vec + count * 8 > size {
        return Err(EOVERFLOW);
      }
      args := ReadHostArgs(b, size, vec, count);
      if args.Err? {
        return Err(args.errno);
      }
    }
    return Ok(Host(prog.value.value, argv0.value, args.value));
  }

  // ---- The readers on any byte string ----

  lemma PrefixWord(b: Data, size: nat, p: nat)
    requires p + 4 <= size <= |b|
    ensures U32(b[..size], p) == U32(b, p)
  {
    assert b[..size][p..p + 4] == b[p..p + 4];
  }

  lemma PrefixSlice(b: Data, size: nat, lo: nat, hi: nat)
    requires lo <= hi <= size <= |b|
    ensures b[..size][lo..hi] == b[lo..hi]
  {
  }

  lemma StringsAgree(b: Data, size: nat, pos: nat)
    requires pos + 8 <= size <= |b|
    ensures HostString(b, size, pos) == ReadOptional(b[..size], pos)
    ensures HostArg(b, size, pos) == ReadString(b[..size], pos)
    ensures ReadRequired(b[..size], pos) ==
            match HostString(b, size, pos)
            case Err(e) => Err(e)
            case Ok(s) => if s.None? || s.value == [] then Err(EINVAL) else Ok(s.value)
  {
    hide U32;
    PrefixWord(b, size, pos);
    PrefixWord(b, size, pos + 4);
    var off, len := U32(b, pos), U32(b, pos + 4);
    if off + len <= size { PrefixSlice(b, size, off, off + len); }
    if off == 0 && len == 0 { assert b[..size][0..0] == []; }
  }

  lemma {:induction false} ArgsAgree(b: Data, size: nat, vec: nat, count: nat, i: nat)
    requires i <= count && vec + 8 * count <= size <= |b|
    ensures HostArgs(b, size, vec, count, i) == ReadEach(b[..size], vec + 8 * i, 8, count - i, ReadString)
    decreases count - i
  {
    hide HostArg, ReadString;
    if i >= count {
    } else {
      StringsAgree(b, size, vec + 8 * i);
      ArgsAgree(b, size, vec, count, i + 1);
    }
  }

  lemma ArgVecAgree(b: Data, size: nat)
    requires HEADER <= size <= |b|
    ensures HostArgVec(b, size) == ReadVec(b[..size], 24, 8, ReadString)
  {
    hide U32, HostArgs, ReadEach, ReadString;
    PrefixWord(b, size, 24);
    PrefixWord(b, size, 28);
    var vec, count := U32(b, 24), U32(b, 28);
    if count > 0 && vec + count * 8 <= size { ArgsAgree(b, size, vec, count, 0); }
  }

  /** The fields only the native reader looks at. */
  predicate OptionalsOk(b: Data) {
    ReadOptional(b, 40).Ok? && ReadOptional(b, 68).Ok?
  }

  predicate VectorsOk(b: Data) {
    ReadVec(b, 32, 16, ReadPair).Ok? && ReadVec(b, 60, 4, ReadI32).Ok? && ReadVec(b, 80, 8, ReadFds).Ok?
  }

  /** The error of the first of the two optional fields that is malformed. */
  function FirstOptionalError(b: Data): nat
    requires !OptionalsOk(b)
  {
    if ReadOptional(b, 40).Err? then ReadOptional(b, 40).errno else ReadOptional(b, 68).errno
  }

  /**
   * When the two readers refuse a record with the same error: the fault is in what
   * both look at first, or the native reader finds no fault before the argument
   * vector, or the one it finds has the argument vector's error.
   */
  predicate SameFault(b: Data) {
    || RecordSize(b).Err?
    || var record := b[..RecordSize(b).value];
       || ReadRequired(record, 8).Err? || ReadOptional(record, 16).Err? || OptionalsOk(record)
       || (ReadVec(record, 24, 8, ReadString).Err? &&
           FirstOptionalError(record) == ReadVec(record, 24, 8, ReadString).errno)
  }

  /**
   * The JavaScript reader is meant to accept and reject exactly as the native one
   * does, with the same error. It accepts whatever the native one accepts and
   * reads the same program and arguments; it accepts more exactly when one of the
   * five fields it never reads is malformed; and what it rejects the native one
   * rejects too, with the same error exactly when `SameFault` holds.
   */
  lemma ReadersAgree(b: Data)
    ensures NativeDecode(b).Ok? <==>
            HostDecode(b).Ok? && var record := b[..RecordSize(b).value]; OptionalsOk(record) && VectorsOk(record)
    ensures NativeDecode(b).Ok? ==>
              var n, h := NativeDecode(b).value, HostDecode(b).value;
              n.prog == h.prog && n.argv0 == h.argv0 && n.args == h.args
    ensures HostDecode(b).Err? ==>
              NativeDecode(b).Err? && (NativeDecode(b).errno == HostDecode(b).errno <==> SameFault(b))
  {
    hide U32, HostString, HostArg, HostArgVec, ReadRequired, ReadOptional, ReadVec;
    if RecordSize(b).Ok? {
      var size := RecordSize(b).value;
      hide RecordSize;
      StringsAgree(b, size, 8);
      StringsAgree(b, size, 16);
      ArgVecAgree(b, size);
    }
  }

  // ---- A record the readers refuse with different errors ----

  function WordBytes(ws: seq<u32>): (b: Data)
    ensures |b| == 4 * |ws|
  {
    if ws == [] then [] else WordBytes(ws[..|ws| - 1]) + Le32(ws[|ws| - 1])
  }

  lemma {:induction false} WordOf(ws: seq<u32>, i: nat)
    requires i < |ws|
    ensures U32(WordBytes(ws), 4 * i) == ws[i]
  {
    hide U32, Le32;
    var n := |ws| - 1;
    var b, less := WordBytes(ws), WordBytes(ws[..n]);
    if i < n {
      WordOf(ws[..n], i);
      assert b[..4 * n] == less;
      PrefixWord(b, 4 * n, 4 * i);
    } else {
      assert b[4 * n..4 * n + 4] == Le32(ws[n]);
      U32OfLe32(b, 4 * n, ws[n]);
    }
  }

  /** A working directory at offset 1, a thousand arguments, and a program of four bytes at the end. */
  const DISPUTED: seq<u32> :=
    [92, 1, 88, 4, 0, 0, 88, 1000, 0, 0, 1, 0, 0, 1, 2, 0, 0, 0, 0, 0, 0, 0, 7]

  /** The JavaScript reader reports the argument vector, the native one the working directory. */
  lemma ErrorsCanDiffer()
    ensures var b := WordBytes(DISPUTED); HostDecode(b) == Err(75) && NativeDecode(b) == Err(22)
  {
    hide U32, WordBytes;
    var b := WordBytes(DISPUTED);
    WordOf(DISPUTED, 0);
    WordOf(DISPUTED, 2);
    WordOf(DISPUTED, 3);
    WordOf(DISPUTED, 4);
    WordOf(DISPUTED, 5);
    WordOf(DISPUTED, 6);
    WordOf(DISPUTED, 7);
    WordOf(DISPUTED, 10);
    WordOf(DISPUTED, 11);
    WordOf(DISPUTED, 1);
    VersionOf(b);
    assert b[..92] == b;
    hide HostArgs, ReadEach;
  }

  lemma VersionOf(b: Data)
    requires |b| >= 8 && U32(b, 4) == 1
    ensures b[4] == 1 && b[5] == 0
  {
    hide U32, Le32;
    Le32OfU32(b, 4);
    OneIs();
    assert b[4] == b[4..8][0] && b[5] == b[4..8][1];
  }

  lemma OneIs()
    ensures Le32(1) == [1, 0, 0, 0]
  {
  }

  // ---- The readers on a record the C library built ----

  lemma WordRead(b: Data, r: Regions, pos: nat, v: u32)
    requires Laid(b, |b|, r) && WordAt(r, pos, v)
    ensures pos + 4 <= |b| && U32(b, pos) == v && ReadU32(b, pos) == Ok(v)
  {
    hide U32, Le32;
    assert Has(b, pos, r[pos]);
    U32OfLe32(b, pos, v);
  }

  lemma OffsetRead(b: Data, r: Regions, pos: nat)
    requires Laid(b, |b|, r) && IsWord(r, pos)
    ensures pos + 4 <= |b| && U32(b, pos) == U32(r[pos], 0)
  {
    assert Has(b, pos, r[pos]) && r[pos][0..4] == r[pos];
  }

  lemma SpanBytes(b: Data, r: Regions, pos: nat, lo: nat, data: Data)
    requires Laid(b, |b|, r) && SpanAt(r, |b|, pos, lo, data)
    ensures pos + 8 <= |b| && U32(b, pos + 4) == |data|
    ensures U32(b, pos) >= lo && U32(b, pos) % 4 == 0 && Has(b, U32(b, pos), data)
  {
    hide U32, Le32, Has, WordAt, Laid;
    OffsetRead(b, r, pos);
    WordRead(b, r, pos + 4, |data|);
    HasRegion(b, r, U32(b, pos), data);
  }

  lemma HasRegion(b: Data, r: Regions, off: nat, data: Data)
    requires Laid(b, |b|, r) && off + |data| <= |b| && (data != [] ==> off in r && r[off] == data)
    ensures Has(b, off, data)
  {
    if data == [] { assert b[off..off] == []; }
  }

  /** A span that was written reads back as its string, wherever it stands. */
  lemma SpanRead(b: Data, r: Regions, pos: nat, lo: nat, data: Data)
    requires Laid(b, |b|, r) && lo > 0 && SpanAt(r, |b|, pos, lo, data)
    ensures pos + 8 <= |b|
    ensures ReadString(b, pos) == Ok(data) && ReadOptional(b, pos) == Ok(Some(data))
    ensures ReadRequired(b, pos) == if data == [] then Err(EINVAL) else Ok(data)
  {
    hide U32, Laid, SpanAt;
    SpanBytes(b, r, pos, lo, data);
  }

  lemma NoSpanRead(b: Data, r: Regions, pos: nat)
    requires Laid(b, |b|, r) && WordAt(r, pos, 0) && WordAt(r, pos + 4, 0)
    ensures pos + 8 <= |b| && ReadOptional(b, pos) == Ok(None) && ReadRequired(b, pos) == Err(EINVAL)
  {
    hide U32, Laid, WordAt;
    WordRead(b, r, pos, 0);
    WordRead(b, r, pos + 4, 0);
  }

  lemma OptSpanRead(b: Data, r: Regions, pos: nat, data: Data)
    requires Laid(b, |b|, r) && OptSpan(r, |b|, pos, data)
    ensures pos + 8 <= |b|
    ensures ReadOptional(b, pos) == Ok(if data == [] then None else Some(data))
    ensures ReadRequired(b, pos) == if data == [] then Err(EINVAL) else Ok(data)
  {
    hide U32, Laid, WordAt, SpanAt, ReadOptional, ReadRequired;
    if data == [] { NoSpanRead(b, r, pos); } else { SpanRead(b, r, pos, HEADER, data); }
  }

  lemma Argv0Read(b: Data, r: Regions, argv: seq<Data>)
    requires Laid(b, |b|, r) && Argv0At(r, |b|, argv)
    ensures 24 <= |b| && ReadOptional(b, 16) == Ok(if argv == [] then None else Some(argv[0]))
  {
    hide U32, Laid, WordAt, SpanAt, ReadOptional, ReadRequired;
    if argv == [] { NoSpanRead(b, r, 16); } else { SpanRead(b, r, 16, HEADER, argv[0]); }
  }

  /** The i-th entry of a vector. */
  function EntryAt<T>(b: Data, at: nat, stride: nat, read: (Data, nat) -> Result<T>, i: nat): Result<T>
    decreases i
  {
    if i == 0 then read(b, at) else EntryAt(b, at + stride, stride, read, i - 1)
  }

  lemma {:induction false} EachRead<T>(b: Data, at: nat, stride: nat, read: (Data, nat) -> Result<T>, xs: seq<T>)
    requires forall i :: 0 <= i < |xs| ==> EntryAt(b, at, stride, read, i) == Ok(xs[i])
    ensures ReadEach(b, at, stride, |xs|, read) == Ok(xs)
    decreases |xs|
  {
    if xs == [] {
    } else {
      assert EntryAt(b, at, stride, read, 0) == Ok(xs[0]);
      forall i | 0 <= i < |xs| - 1 ensures EntryAt(b, at + stride, stride, read, i) == Ok(xs[1..][i]) {
        assert EntryAt(b, at, stride, read, i + 1) == Ok(xs[i + 1]);
      }
      EachRead(b, at + stride, stride, read, xs[1..]);
      assert [xs[0]] + xs[1..] == xs;
    }
  }

  ghost predicate ReadsOk<T>(b: Data, at: nat, stride: nat, read: (Data, nat) -> Result<T>, n: nat) {
    forall i :: 0 <= i < n ==> EntryAt(b, at, stride, read, i).Ok?
  }

  /** The first entry that fails decides. */
  lemma {:induction false} EachFails<T>(b: Data, at: nat, stride: nat, count: nat, read: (Data, nat) -> Result<T>,
                                        bad: nat)
    requires bad < count && ReadsOk(b, at, stride, read, bad) && EntryAt(b, at, stride, read, bad).Err?
    ensures ReadEach(b, at, stride, count, read) == Err(EntryAt(b, at, stride, read, bad).errno)
    decreases count
  {
    if bad == 0 {
    } else {
      assert EntryAt(b, at, stride, read, 0).Ok?;
      var next := at + stride;
      forall i: nat | i < bad - 1 ensures EntryAt(b, next, stride, read, i).Ok? {
        assert EntryAt(b, at, stride, read, i + 1).Ok?;
      }
      EachFails(b, at + stride, stride, count - 1, read, bad - 1);
    }
  }

  lemma {:induction false} Entry4<T>(b: Data, at: nat, read: (Data, nat) -> Result<T>, i: nat)
    ensures EntryAt(b, at, 4, read, i) == read(b, at + 4 * i)
    decreases i
  {
    if i == 0 {
    } else {
      Entry4(b, at + 4, read, i - 1);
    }
  }

  lemma {:induction false} Entry8<T>(b: Data, at: nat, read: (Data, nat) -> Result<T>, i: nat)
    ensures EntryAt(b, at, 8, read, i) == read(b, at + 8 * i)
    decreases i
  {
    if i == 0 {
    } else {
      Entry8(b, at + 8, read, i - 1);
    }
  }

  lemma {:induction false} Entry16<T>(b: Data, at: nat, read: (Data, nat) -> Result<T>, i: nat)
    ensures EntryAt(b, at, 16, read, i) == read(b, at + 16 * i)
    decreases i
  {
    if i == 0 {
    } else {
      Entry16(b, at + 16, read, i - 1);
    }
  }

  /** A vector of strings as the buffer shows it. */
  lemma VecBytes(b: Data, r: Regions, field: nat, strings: seq<Data>, count: u32)
    requires Laid(b, |b|, r) && VecAt(r, |b|, field, strings, count) && strings != []
    ensures field + 8 <= |b| && U32(b, field + 4) == count
    ensures var vec := U32(b, field); HEADER <= vec && vec % 4 == 0 && vec + 8 * |strings| <= |b|
    ensures forall i :: 0 <= i < |strings| ==> Slot(r, |b|, U32(b, field), |strings|, i, strings[i])
  {
    hide U32, Laid, WordAt, SpanAt;
    OffsetRead(b, r, field);
    WordRead(b, r, field + 4, count);
  }

  /** The i-th of `n` spans. */
  ghost predicate Slot(r: Regions, len: nat, vec: nat, n: nat, i: nat, data: Data) {
    SpanAt(r, len, vec + 8 * i, vec + 8 * n, data)
  }

  /** A vector of words as the buffer shows it. */
  lemma WordsBytes(b: Data, r: Regions, field: nat, words: seq<u32>, count: u32)
    requires Laid(b, |b|, r) && WordsAt(r, |b|, field, words, count) && words != []
    ensures field + 8 <= |b| && U32(b, field + 4) == count
    ensures var vec := U32(b, field); HEADER <= vec && vec % 4 == 0 && vec + 4 * |words| <= |b|
    ensures forall i :: 0 <= i < |words| ==> ReadU32(b, U32(b, field) + 4 * i) == Ok(words[i])
  {
    hide U32, Laid, WordAt, ReadU32;
    OffsetRead(b, r, field);
    WordRead(b, r, field + 4, count);
    forall i | 0 <= i < |words| ensures ReadU32(b, U32(b, field) + 4 * i) == Ok(words[i]) {
      WordRead(b, r, U32(b, field) + 4 * i, words[i]);
    }
  }

  lemma EmptyVecRead<T>(b: Data, r: Regions, field: nat, stride: nat, read: (Data, nat) -> Result<T>)
    requires Laid(b, |b|, r) && WordAt(r, field, 0) && WordAt(r, field + 4, 0)
    ensures ReadVec(b, field, stride, read) == Ok([])
  {
    hide U32, Laid, WordAt;
    WordRead(b, r, field, 0);
    WordRead(b, r, field + 4, 0);
  }

  /** The argument strings, empty ones included. */
  lemma StringVecRead(b: Data, r: Regions, field: nat, strings: seq<Data>)
    requires Laid(b, |b|, r) && |strings| < U32_LIMIT && VecAt(r, |b|, field, strings, |strings|)
    ensures ReadVec(b, field, 8, ReadString) == Ok(strings)
  {
    hide U32, Laid, WordAt, SpanAt, ReadString, ReadEach, EntryAt;
    if strings == [] {
      EmptyVecRead(b, r, field, 8, ReadString);
    } else {
      VecBytes(b, r, field, strings, |strings|);
      var vec := U32(b, field);
      forall i | 0 <= i < |strings| ensures EntryAt(b, vec, 8, ReadString, i) == Ok(strings[i]) {
        assert Slot(r, |b|, vec, |strings|, i, strings[i]);
        SpanRead(b, r, vec + 8 * i, vec + 8 * |strings|, strings[i]);
        Entry8(b, vec, ReadString, i);
      }
      EachRead(b, vec, 8, ReadString, strings);
    }
  }

  /** The i-th pair of the environment: an empty name is refused. */
  lemma PairRead(b: Data, r: Regions, vec: nat, pairs: seq<(Data, Data)>, i: nat)
    requires Laid(b, |b|, r) && vec >= HEADER && i < |pairs|
    requires forall j :: 0 <= j < |Flat(pairs)| ==> Slot(r, |b|, vec, |Flat(pairs)|, j, Flat(pairs)[j])
    ensures ReadPair(b, vec + 16 * i) == if pairs[i].0 == [] then Err(EINVAL) else Ok(pairs[i])
  {
    hide U32, Laid, SpanAt, ReadString, ReadRequired, ReadOptional, Flat;
    var strings := Flat(pairs);
    var lo := vec + 8 * |strings|;
    assert strings[2 * i] == pairs[i].0 && strings[2 * i + 1] == pairs[i].1;
    assert Slot(r, |b|, vec, |strings|, 2 * i, strings[2 * i]);
    assert Slot(r, |b|, vec, |strings|, 2 * i + 1, strings[2 * i + 1]);
    SpanRead(b, r, vec + 8 * (2 * i), lo, strings[2 * i]);
    SpanRead(b, r, vec + 8 * (2 * i + 1), lo, strings[2 * i + 1]);
  }

  ghost predicate NamesPresent(pairs: seq<(Data, Data)>) {
    forall i :: 0 <= i < |pairs| ==> pairs[i].0 != []
  }

  /** The first pair without a name. */
  lemma {:induction false} FirstNameless(pairs: seq<(Data, Data)>) returns (i: nat)
    requires !NamesPresent(pairs)
    ensures i < |pairs| && pairs[i].0 == [] && forall j :: 0 <= j < i ==> pairs[j].0 != []
  {
    i := 0;
    while pairs[i].0 != []
      invariant i < |pairs| && forall j :: 0 <= j < i ==> pairs[j].0 != []
      decreases |pairs| - i
    {
      i := i + 1;
    }
  }

  /** What reading a pair should give. */
  function Named(p: (Data, Data)): Result<(Data, Data)> {
    if p.0 == [] then Err(EINVAL) else Ok(p)
  }

  lemma EnvEach(b: Data, vec: nat, pairs: seq<(Data, Data)>)
    requires forall i :: 0 <= i < |pairs| ==> EntryAt(b, vec, 16, ReadPair, i) == Named(pairs[i])
    ensures ReadEach(b, vec, 16, |pairs|, ReadPair) == if NamesPresent(pairs) then Ok(pairs) else Err(EINVAL)
  {
    hide ReadPair, ReadEach, EntryAt;
    if NamesPresent(pairs) {
      EachRead(b, vec, 16, ReadPair, pairs);
    } else {
      var bad := FirstNameless(pairs);
      assert Named(pairs[bad]) == Err(EINVAL);
      EachFails(b, vec, 16, |pairs|, ReadPair, bad);
    }
  }

  lemma EnvEntries(b: Data, r: Regions, pairs: seq<(Data, Data)>)
    requires Laid(b, |b|, r) && |pairs| < U32_LIMIT && pairs != [] && VecAt(r, |b|, 32, Flat(pairs), |pairs|)
    ensures 40 <= |b| && U32(b, 36) == |pairs|
    ensures var vec := U32(b, 32); HEADER <= vec && vec % 4 == 0 && vec + 16 * |pairs| <= |b|
    ensures forall i :: 0 <= i < |pairs| ==> EntryAt(b, U32(b, 32), 16, ReadPair, i) == Named(pairs[i])
  {
    hide U32, Laid, Slot, VecAt, SpanAt, ReadPair, EntryAt, Flat;
    VecBytes(b, r, 32, Flat(pairs), |pairs|);
    var vec := U32(b, 32);
    forall i | 0 <= i < |pairs| ensures EntryAt(b, vec, 16, ReadPair, i) == Named(pairs[i]) {
      PairRead(b, r, vec, pairs, i);
      Entry16(b, vec, ReadPair, i);
    }
  }

  lemma EnvRead(b: Data, r: Regions, pairs: seq<(Data, Data)>)
    requires Laid(b, |b|, r) && |pairs| < U32_LIMIT && VecAt(r, |b|, 32, Flat(pairs), |pairs|)
    ensures ReadVec(b, 32, 16, ReadPair) == if NamesPresent(pairs) then Ok(pairs) else Err(EINVAL)
  {
    hide U32, Laid, VecAt, ReadPair, ReadEach, ReadVec, EntryAt, Flat, WordAt;
    if pairs == [] {
      NoEnv(r, |b|);
      EmptyVecRead(b, r, 32, 16, ReadPair);
    } else {
      EnvEntries(b, r, pairs);
      EnvEach(b, U32(b, 32), pairs);
      VecOf(b, 32, 16, ReadPair);
    }
  }

  lemma NoEnv(r: Regions, len: nat)
    ensures Flat([]) == [] && (VecAt(r, len, 32, [], 0) ==> WordAt(r, 32, 0) && WordAt(r, 36, 0))
  {
  }

  /** A vector that is there and in bounds is read entry by entry. */
  lemma VecOf<T>(b: Data, field: nat, stride: nat, read: (Data, nat) -> Result<T>)
    requires field + 8 <= |b| && U32(b, field) != 0 && U32(b, field) % 4 == 0
    requires U32(b, field + 4) != 0 && U32(b, field) + U32(b, field + 4) * stride <= |b|
    ensures ReadVec(b, field, stride, read) == ReadEach(b, U32(b, field), stride, U32(b, field + 4), read)
  {
    hide U32, ReadEach;
  }

  lemma PassRead(b: Data, r: Regions, pass: seq<int>)
    requires Laid(b, |b|, r) && |pass| < U32_LIMIT && forall i :: 0 <= i < |pass| ==> Is32(pass[i])
    requires WordsAt(r, |b|, 60, PassWords(pass), |pass|)
    ensures ReadVec(b, 60, 4, ReadI32) == Ok(pass)
  {
    hide U32, Laid, WordAt, ReadU32, ReadEach, EntryAt;
    if pass == [] {
      EmptyVecRead(b, r, 60, 4, ReadI32);
    } else {
      WordsBytes(b, r, 60, PassWords(pass), |pass|);
      hide WordsAt;
      var vec := U32(b, 60);
      forall i | 0 <= i < |pass| ensures EntryAt(b, vec, 4, ReadI32, i) == Ok(pass[i]) {
        assert ReadU32(b, vec + 4 * i) == Ok(PassWords(pass)[i]);
        Entry4(b, vec, ReadI32, i);
      }
      hide ReadI32;
      EachRead(b, vec, 4, ReadI32, pass);
    }
  }

  lemma FdsRead(b: Data, vec: nat, fdMap: seq<(int, int)>, i: nat)
    requires i < |fdMap| && forall j :: 0 <= j < |fdMap| ==> Is32(fdMap[j].0) && Is32(fdMap[j].1)
    requires forall j :: 0 <= j < |MapWords(fdMap)| ==> ReadU32(b, vec + 4 * j) == Ok(MapWords(fdMap)[j])
    ensures ReadFds(b, vec + 8 * i) == Ok(fdMap[i])
  {
    hide ReadU32, MapWords;
    var words := MapWords(fdMap);
    assert words[2 * i] == AsU32(fdMap[i].0) && words[2 * i + 1] == AsU32(fdMap[i].1);
    assert ReadU32(b, vec + 4 * (2 * i)) == Ok(words[2 * i]);
    assert ReadU32(b, vec + 4 * (2 * i + 1)) == Ok(words[2 * i + 1]);
  }

  lemma FdMapRead(b: Data, r: Regions, fdMap: seq<(int, int)>)
    requires Laid(b, |b|, r) && |fdMap| < U32_LIMIT
    requires forall i :: 0 <= i < |fdMap| ==> Is32(fdMap[i].0) && Is32(fdMap[i].1)
    requires WordsAt(r, |b|, 80, MapWords(fdMap), |fdMap|)
    ensures ReadVec(b, 80, 8, ReadFds) == Ok(fdMap)
  {
    hide U32, Laid, WordAt, ReadEach, ReadU32, EntryAt, MapWords, ReadFds;
    if fdMap == [] {
      EmptyVecRead(b, r, 80, 8, ReadFds);
    } else {
      WordsBytes(b, r, 80, MapWords(fdMap), |fdMap|);
      hide WordsAt;
      var vec := U32(b, 80);
      forall i | 0 <= i < |fdMap| ensures EntryAt(b, vec, 8, ReadFds, i) == Ok(fdMap[i]) {
        FdsRead(b, vec, fdMap, i);
        Entry8(b, vec, ReadFds, i);
      }
      EachRead(b, vec, 8, ReadFds, fdMap);
    }
  }

  lemma SizeRead(b: Data, r: Regions, q: Request)
    requires Sendable(q) && Encodes(b, r, q)
    ensures RecordSize(b) == Ok(|b|) && b[..|b|] == b
  {
    WordRead(b, r, 0, |b|);
    assert Has(b, 4, r[4]) && r[4] == [1, 0, 0, 0];
    assert b[4..8] == [1, 0, 0, 0] && b[4] == b[4..8][0] && b[5] == b[4..8][1];
    hide U32, Laid, WordAt, Fields;
  }

  lemma FixedRead(b: Data, r: Regions, q: Request)
    requires Sendable(q) && Laid(b, |b|, r) && FixedOk(r, q)
    ensures |b| >= 80 && ReadOptional(b, 68) == Ok(None) && AsI32(U32(b, 76)) == 0
    ensures [AsI32(U32(b, 48)), AsI32(U32(b, 52)), AsI32(U32(b, 56))] == q.stdio
  {
    hide U32, Laid, WordAt;
    WordRead(b, r, 48, AsU32(q.stdio[0]));
    WordRead(b, r, 52, AsU32(q.stdio[1]));
    WordRead(b, r, 56, AsU32(q.stdio[2]));
    WordRead(b, r, 76, 0);
    NoSpanRead(b, r, 68);
  }

  /** The request as a reader should see it. */
  function Sent(q: Request): Native {
    Native(q.prog, if q.argv == [] then None else Some(q.argv[0]), if q.argv == [] then [] else q.argv[1..],
           EnvPairs(q.env), if q.cwd == Some([]) then None else q.cwd, q.stdio, q.pass, q.fdMap, None, 0)
  }

  /**
   * The native reader gets back the request, every string, pair and descriptor
   * of it, exactly when the program name and all environment names are not
   * empty; otherwise it refuses the record.
   */
  lemma NativeReadsBack(b: Data, r: Regions, q: Request)
    requires Sendable(q) && Encodes(b, r, q)
    ensures NativeDecode(b) == if q.prog != [] && NamesPresent(EnvPairs(q.env)) then Ok(Sent(q)) else Err(EINVAL)
  {
    hide U32, Laid, WordAt, OptSpan, Argv0At, VecAt, WordsAt, FixedOk, ReadOptional, ReadRequired, ReadVec, Flat,
      EnvPairs,
      PassWords, MapWords, RecordSize, NamesPresent, AsI32;
    SizeRead(b, r, q);
    assert FieldOk(r, |b|, q, 1) && FieldOk(r, |b|, q, 2) && FieldOk(r, |b|, q, 3) && FieldOk(r, |b|, q, 4);
    assert FieldOk(r, |b|, q, 5) && FieldOk(r, |b|, q, 6) && FieldOk(r, |b|, q, 7);
    OptSpanRead(b, r, 8, q.prog);
    Argv0Read(b, r, q.argv);
    OptSpanRead(b, r, 40, q.Cwd());
    StringVecRead(b, r, 24, q.Args());
    EnvRead(b, r, EnvPairs(q.env));
    PassRead(b, r, q.pass);
    FdMapRead(b, r, q.fdMap);
    FixedRead(b, r, q);
  }

  /**
   * The JavaScript reader gets back the program and the arguments exactly when
   * the program name is not empty. So it takes the record of a request with a
   * nameless environment entry, which the native reader refuses.
   */
  lemma HostReadsBack(b: Data, r: Regions, q: Request)
    requires Sendable(q) && Encodes(b, r, q)
    ensures HostDecode(b) ==
            if q.prog == [] then Err(EINVAL)
            else if q.argv == [] then Ok(Host(q.prog, None, []))
            else Ok(Host(q.prog, Some(q.argv[0]), q.argv[1..]))
  {
    hide U32, Laid, WordAt, OptSpan, Argv0At, VecAt, WordsAt, FixedOk, HostString, HostArgVec, ReadOptional,
      ReadRequired,
      ReadVec, Flat, EnvPairs, PassWords, MapWords, RecordSize;
    SizeRead(b, r, q);
    assert FieldOk(r, |b|, q, 1) && FieldOk(r, |b|, q, 2) && FieldOk(r, |b|, q, 3);
    StringsAgree(b, |b|, 8);
    StringsAgree(b, |b|, 16);
    ArgVecAgree(b, |b|);
    OptSpanRead(b, r, 8, q.prog);
    Argv0Read(b, r, q.argv);
    StringVecRead(b, r, 24, q.Args());
  }
}
