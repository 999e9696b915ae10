/**
 * Argument vectors on the wire: length-prefixed byte strings, as the hosts send
 * them to SYS_SPAWN, the kernel parses and queues them, and the host decodes the
 * pending spawn again.
 */
module ArgvWire {
  import opened Wrappers
  import opened Sequences
  import opened Bytes
  import opened Memory


  type Argv = seq<Data>

  ghost predicate Sized(argv: Argv) {
    |argv| < U32_LIMIT && forall i :: 0 <= i < |argv| ==> |argv[i]| < U32_LIMIT
  }

  function Item(a: Data): Data
    requires |a| < U32_LIMIT
  {
    Le32(|a|) + a
  }

  ghost function Encode(argv: Argv): Data
    requires Sized(argv)
  {
    if argv == [] then [] else Item(argv[0]) + Encode(argv[1..])
  }

  lemma {:induction false} EncodeSnoc(argv: Argv, i: nat)
    requires Sized(argv) && i < |argv|
    ensures Encode(argv[..i + 1]) == Encode(argv[..i]) + Item(argv[i])
    decreases i
  {
    hide Item;
    if i == 0 {
      assert argv[..1] == [argv[0]] && argv[..0] == [];
      assert Encode([argv[0]]) == Item(argv[0]) + Encode([argv[0]][1..]);
    } else {
      EncodeSnoc(argv[1..], i - 1);
      assert argv[..i + 1][1..] == argv[1..][..i] && argv[..i][1..] == argv[1..][..i - 1];
    }
  }

  // ---- Decoding ----

  /** What stands at `p`: an item, its bytes and where it ends. */
  function ItemAt(b: Data, p: nat): (r: Option<(Data, nat)>)
    ensures r.Some? ==> p + 4 <= r.value.1 <= |b| && |r.value.0| < U32_LIMIT
  {
    if p + 4 > |b| then None else
    var end := p + 4 + U32(b, p);
    if end > |b| then None else Some((b[p + 4..end], end))
  }

  lemma ItemReads(b: Data, p: nat, a: Data)
    requires |a| < U32_LIMIT && Has(b, p, Item(a))
    ensures ItemAt(b, p) == Some((a, p + |Item(a)|))
  {
    HasSplit(b, p, Le32(|a|), a);
    U32OfLe32(b, p, |a|);
    hide U32, Le32;
  }

  lemma ItemWritten(b: Data, p: nat)
    requires ItemAt(b, p).Some?
    ensures var (a, end) := ItemAt(b, p).value; Has(b, p, Item(a)) && end == p + |Item(a)|
  {
    var (a, end) := ItemAt(b, p).value;
    Le32OfU32(b, p);
    HasSplit(b, p, Le32(|a|), a);
    hide U32, Le32;
  }

  /** decodeArgv from the cursor on. */
  function DecodeFrom(b: Data, p: nat): (r: Result<Argv>)
    requires p <= |b|
    ensures r.Ok? ==> (forall i :: 0 <= i < |r.value| ==> |r.value[i]| < U32_LIMIT) && 4 * |r.value| <= |b| - p
    decreases |b| - p
  {
    if p == |b| then Ok([]) else
    match ItemAt(b, p)
    case None => Err(EINVAL)
    case Some((a, end)) =>
      match DecodeFrom(b, end)
      case Err(e) => Err(e)
      case Ok(rest) => Ok([a] + rest)
  }

  /** Decoding an encoded list returns it. */
  lemma {:induction false} DecodeOfEncode(b: Data, p: nat, argv: Argv)
    requires p <= |b| && Sized(argv) && b[p..] == Encode(argv)
    ensures DecodeFrom(b, p) == Ok(argv)
    decreases |argv|
  {
    hide Item, ItemAt;
    if argv == [] {
    } else {
      var item, rest := Item(argv[0]), Encode(argv[1..]);
      ItemLength(argv[0]);
      assert b[p..p + |item|] == (item + rest)[..|item|] == item;
      ItemReads(b, p, argv[0]);
      assert b[p + |item|..] == (item + rest)[|item|..] == rest;
      DecodeOfEncode(b, p + |item|, argv[1..]);
      assert [argv[0]] + argv[1..] == argv;
    }
  }

  lemma ItemLength(a: Data)
    requires |a| < U32_LIMIT
    ensures |Item(a)| == 4 + |a|
  {
  }

  /** Any accepted byte string re-encodes to itself. */
  lemma {:induction false} EncodeOfDecode(b: Data, p: nat)
    requires p <= |b| < U32_LIMIT && DecodeFrom(b, p).Ok?
    ensures Sized(DecodeFrom(b, p).value) && Encode(DecodeFrom(b, p).value) == b[p..]
    decreases |b| - p
  {
    hide Item, ItemAt;
    if p >= |b| {
    } else {
      var (a, end) := ItemAt(b, p).value;
      EncodeOfDecode(b, end);
      var argv, rest := DecodeFrom(b, p).value, DecodeFrom(b, end).value;
      ItemWritten(b, p);
      assert argv[1..] == rest;
      assert b[p..] == b[p..end] + b[end..];
    }
  }

  /** The kernel's parse of the argument list, which ignores a tail shorter than a length word. */
  function KernelArgs(b: Data, p: nat): (r: Result<Argv>)
    requires p <= |b|
    ensures r.Ok? ==> (forall i :: 0 <= i < |r.value| ==> |r.value[i]| < U32_LIMIT) && 4 * |r.value| <= |b| - p
    decreases |b| - p
  {
    if p + 4 > |b| then Ok([]) else
    match ItemAt(b, p)
    case None => Err(EINVAL)
    case Some((a, end)) =>
      match KernelArgs(b, end)
      case Err(e) => Err(e)
      case Ok(rest) => Ok([a] + rest)
  }

  /**
   * The kernel accepts exactly an encoded list followed by at most three stray
   * bytes, which the hosts' decoder refuses.
   */
  lemma {:induction false} KernelIgnoresTail(b: Data, p: nat, argv: Argv)
    requires p <= |b| && Sized(argv)
    ensures KernelArgs(b, p) == Ok(argv) <==>
            Has(b, p, Encode(argv)) && |b| - (p + |Encode(argv)|) < 4
    decreases |b| - p
  {
    if argv == [] {
      assert b[p..p] == [];
    } else {
      hide Item, ItemAt, Has, Encode, KernelArgs;
      EncodeCons(argv);
      HasSplit(b, p, Item(argv[0]), Encode(argv[1..]));
      ItemIs(b, p, argv[0]);
      KernelStep(b, p);
      if ItemAt(b, p).Some? {
        var (a, end) := ItemAt(b, p).value;
        HeadTail(argv, a, KernelArgs(b, end));
        if a == argv[0] { KernelIgnoresTail(b, end, argv[1..]); }
      }
    }
  }

  lemma EncodeCons(argv: Argv)
    requires Sized(argv) && argv != []
    ensures Encode(argv) == Item(argv[0]) + Encode(argv[1..])
  {
  }

  lemma KernelStep(b: Data, p: nat)
    requires p <= |b|
    ensures p + 4 > |b| ==> KernelArgs(b, p) == Ok([])
    ensures p + 4 <= |b| && ItemAt(b, p).None? ==> KernelArgs(b, p).Err?
    ensures p + 4 <= |b| && ItemAt(b, p).Some? ==>
              var (a, end) := ItemAt(b, p).value;
              var rest := KernelArgs(b, end);
              KernelArgs(b, p) == if rest.Ok? then Ok([a] + rest.value) else rest
  {
    hide ItemAt;
  }

  /** Of what the kernel accepts the hosts' decoder accepts the same list exactly when no byte is left over. */
  lemma {:induction false} HostsRefuseTail(b: Data, p: nat, argv: Argv)
    requires p <= |b| && Sized(argv) && KernelArgs(b, p) == Ok(argv)
    ensures p + |Encode(argv)| <= |b|
    ensures DecodeFrom(b, p) == if p + |Encode(argv)| == |b| then Ok(argv) else Err(22)
    decreases |b| - p
  {
    KernelIgnoresTail(b, p, argv);
    if p + 4 > |b| {
    } else {
      var (a, end) := ItemAt(b, p).value;
      var rest := KernelArgs(b, end).value;
      assert argv == [a] + rest && argv[1..] == rest;
      hide Item;
      ItemIs(b, p, a);
      ItemLength(a);
      hide ItemAt, Has;
      HostsRefuseTail(b, end, rest);
    }
  }

  /** An item reads back exactly where it stands. */
  lemma ItemIs(b: Data, p: nat, a: Data)
    requires |a| < U32_LIMIT
    ensures Has(b, p, Item(a)) <==> ItemAt(b, p).Some? && ItemAt(b, p).value.0 == a
    ensures Has(b, p, Item(a)) ==> ItemAt(b, p).value.1 == p + |Item(a)|
    ensures ItemAt(b, p).Some? ==> p + 4 <= |b|
  {
    if Has(b, p, Item(a)) { ItemReads(b, p, a); }
    if ItemAt(b, p).Some? { ItemWritten(b, p); }
  }

  lemma HeadTail(argv: Argv, a: Data, rest: Result<Argv>)
    requires argv != []
    ensures (rest.Ok? && [a] + rest.value == argv) <==> a == argv[0] && rest == Ok(argv[1..])
  {
    if rest.Ok? && [a] + rest.value == argv { assert argv[1..] == rest.value; }
  }

  // ---- The cursor loops ----

  /** A length word and then the bytes, at the cursor. */
  method PutItem(buf: array<byte>, cursor: nat, a: Data)
    requires |a| < U32_LIMIT && cursor + 4 + |a| <= buf.Length
    modifies buf
    ensures buf[..cursor + 4 + |a|] == old(buf[..cursor]) + Item(a)
  {
    PutWord(buf, cursor, |a|);
    PutBytes(buf, cursor + 4, a);
    assert old(buf[..cursor]) + Le32(|a|) + a == old(buf[..cursor]) + (Le32(|a|) + a);
  }

  /** The room the items take. */
  method ItemsSize(argv: Argv) returns (size: nat)
    requires Sized(argv)
    ensures size == |Encode(argv)|
  {
    hide Encode;
    size := 0;
    EncodeEnds(argv);
    for i := 0 to |argv|
      invariant size == |Encode(argv[..i])|
    {
      EncodeSnoc(argv, i);
      size := size + 4 + |argv[i]|;
    }
  }

  lemma EncodeEnds(argv: Argv)
    requires Sized(argv)
    ensures Encode(argv[..0]) == [] && argv[..|argv|] == argv
  {
  }

  lemma {:induction false} PrefixFits(argv: Argv, i: nat)
    requires Sized(argv) && i <= |argv|
    ensures |Encode(argv[..i])| <= |Encode(argv)|
    decreases |argv| - i
  {
    if i == |argv| {
      assert argv[..i] == argv;
    } else {
      EncodeSnoc(argv, i);
      PrefixFits(argv, i + 1);
    }
  }

  /** Writes the items one after the other from the cursor on. */
  method PutItems(buf: array<byte>, start: nat, argv: Argv)
    requires Sized(argv) && start + |Encode(argv)| <= buf.Length
    modifies buf
    ensures buf[..start + |Encode(argv)|] == old(buf[..start]) + Encode(argv)
  {
    hide Encode, Item;
    var cursor := start;
    ghost var was := buf[..start];
    EncodeEnds(argv);
    assert was + [] == was;
    for i := 0 to |argv|
      invariant cursor == start + |Encode(argv[..i])| <= buf.Length
      invariant buf[..cursor] == was + Encode(argv[..i])
    {
      EncodeSnoc(argv, i);
      PrefixFits(argv, i + 1);
      ItemLength(argv[i]);
      PutItem(buf, cursor, argv[i]);
      assert was + Encode(argv[..i]) + Item(argv[i]) == was + (Encode(argv[..i]) + Item(argv[i]));
      cursor := cursor + 4 + |argv[i]|;
    }
  }

  method EncodeArgv(argv: Argv) returns (wire: Data)
    requires Sized(argv)
    ensures wire == Encode(argv)
  {
    hide Encode;
    var size := ItemsSize(argv);
    var buf := new byte[size];
    PutItems(buf, 0, argv);
    wire := buf[..];
  }

  method DecodeArgv(b: Data) returns (r: Result<Argv>)
    ensures r == DecodeFrom(b, 0)
  {
    hide U32;
    var argv: Argv := [];
    var cursor := 0;
    AfterNothing(DecodeFrom(b, 0), argv);
    while cursor < |b|
      invariant cursor <= |b|
      invariant After(argv, DecodeFrom(b, cursor)) == DecodeFrom(b, 0)
    {
      if |b| - cursor < 4 {
        return Err(EINVAL);
      }
      var len := U32(b, cursor);
      if |b| - (cursor + 4) < len {
        return Err(EINVAL);
      }
      var a := b[cursor + 4..cursor + 4 + len];
      AfterOne(argv, a, DecodeFrom(b, cursor + 4 + len));
      argv := argv + [a];
      cursor := cursor + 4 + len;
    }
    AfterNothing(DecodeFrom(b, 0), argv);
    return Ok(argv);
  }

  // ---- The system call request ----

  /** What host_spawn sends: the path, then the arguments. */
  ghost function SpawnWire(path: Data, argv: Argv): Data
    requires |path| < U32_LIMIT && Sized(argv)
  {
    Item(path) + Encode(argv)
  }

  method MakeSpawnWire(path: Data, argv: Argv) returns (wire: Data)
    requires |path| < U32_LIMIT && Sized(argv)
    ensures wire == SpawnWire(path, argv)
  {
    hide Encode;
    var size := ItemsSize(argv);
    var buf := new byte[4 + |path| + size];
    PutItem(buf, 0, path);
    ItemLength(path);
    assert buf[..0] == [] && [] + Item(path) == Item(path);
    PutItems(buf, 4 + |path|, argv);
    wire := buf[..];
    assert buf[..] == buf[..4 + |path| + size];
  }

  /** SYS_SPAWN's reading of the request. */
  function KernelParse(b: Data): Result<(Data, Argv)> {
    match ItemAt(b, 0)
    case None => Err(EINVAL)
    case Some((path, end)) =>
      if path == [] then Err(EINVAL) else
      match KernelArgs(b, end)
      case Err(e) => Err(e)
      case Ok(argv) => Ok((path, argv))
  }

  method ParseSpawn(b: Data) returns (r: Result<(Data, Argv)>)
    ensures r == KernelParse(b)
  {
    hide U32;
    if |b| < 4 {
      return Err(EINVAL);
    }
    var pathLen := U32(b, 0);
    if 4 + pathLen > |b| {
      return Err(EINVAL);
    }
    var path := b[4..4 + pathLen];
    if path == [] {
      return Err(EINVAL);
    }
    var argv: Argv := [];
    var cursor := 4 + pathLen;
    ghost var all := KernelArgs(b, cursor);
    AfterNothing(all, argv);
    while cursor + 4 <= |b|
      invariant cursor <= |b|
      invariant After(argv, KernelArgs(b, cursor)) == all
      decreases |b| - cursor
    {
      var len := U32(b, cursor);
      cursor := cursor + 4;
      var end := cursor + len;
      if end > |b| {
        return Err(EINVAL);
      }
      AfterOne(argv, b[cursor..end], KernelArgs(b, end));
      argv := argv + [b[cursor..end]];
      cursor := end;
    }
    AfterNothing(all, argv);
    return Ok((path, argv));
  }

  /** The kernel reads the path and the arguments that were sent, for every path that is not empty. */
  lemma KernelReadsWire(path: Data, argv: Argv)
    requires |path| < U32_LIMIT && Sized(argv)
    ensures KernelParse(SpawnWire(path, argv)) == if path == [] then Err(22) else Ok((path, argv))
  {
    hide Item, ItemAt, Encode;
    var b, n := SpawnWire(path, argv), |Item(path)|;
    ItemLength(path);
    assert b[0..n] == Item(path) && b[n..] == Encode(argv) && b[n..n + |Encode(argv)|] == Encode(argv);
    ItemReads(b, 0, path);
    KernelIgnoresTail(b, n, argv);
  }

  // ---- The pending spawn ----

  datatype Pending = Pending(child: u32, wasm: Data, argv: Argv)

  ghost predicate Fits(p: Pending) {
    |p.wasm| < U32_LIMIT && Sized(p.argv)
  }

  ghost function PendingWire(p: Pending): Data
    requires Fits(p)
  {
    Le32(p.child) + Item(p.wasm) + Le32(|p.argv|) + Encode(p.argv)
  }

  /** `n` items from `p` on, which must end the input. */
  function ExactItems(b: Data, p: nat, n: nat): (r: Option<Argv>)
    ensures r.Some? ==> |r.value| == n && forall i :: 0 <= i < n ==> |r.value[i]| < U32_LIMIT
    decreases n
  {
    if n == 0 then if p == |b| then Some([]) else None else
    match ItemAt(b, p)
    case None => None
    case Some((a, end)) =>
      match ExactItems(b, end, n - 1)
      case None => None
      case Some(rest) => Some([a] + rest)
  }

  /** decodePendingSpawn; None stands for any of its exceptions. */
  function DecodePending(b: Data): (r: Option<Pending>)
    ensures r.Some? ==> Fits(r.value)
  {
    if |b| < 12 || 8 + U32(b, 4) + 4 > |b| then None else
    var wasmLen := U32(b, 4);
    var argc := U32(b, 8 + wasmLen);
    match ExactItems(b, 12 + wasmLen, argc)
    case None => None
    case Some(argv) => Some(Pending(U32(b, 0), b[8..8 + wasmLen], argv))
  }

  lemma {:induction false} ExactItemsAre(b: Data, p: nat, argv: Argv)
    requires Sized(argv)
    ensures ExactItems(b, p, |argv|) == Some(argv) <==> Has(b, p, Encode(argv)) && p + |Encode(argv)| == |b|
    decreases |argv|
  {
    if argv == [] {
      if p <= |b| { assert b[p..p] == []; }
    } else {
      var item := Item(argv[0]);
      HasSplit(b, p, item, Encode(argv[1..]));
      ItemIs(b, p, argv[0]);
      hide Item, ItemAt, Has;
      if ItemAt(b, p).Some? {
        var (a, end) := ItemAt(b, p).value;
        var tail := ExactItems(b, end, |argv| - 1);
        HeadTail(argv, a, if tail.Some? then Ok(tail.value) else Err(0));
        if a == argv[0] { ExactItemsAre(b, end, argv[1..]); }
      }
    }
  }

  /**
   * The decoder accepts exactly the serialised pending spawns, with nothing
   * missing and nothing left over, and returns the one that was serialised.
   */
  lemma PendingRoundTrip(b: Data, p: Pending)
    requires Fits(p)
    ensures DecodePending(b) == Some(p) <==> b == PendingWire(p)
  {
    hide Encode, U32, Le32, ExactItems, Sized;
    if b == PendingWire(p) {
      PendingParts(b, p);
      ExactItemsAre(b, 12 + |p.wasm|, p.argv);
    }
    if DecodePending(b) == Some(p) { PendingWhole(b, p); }
  }

  /** The fixed words and the image. */
  ghost predicate PendingBody(b: Data, p: Pending) {
    && 12 + |p.wasm| <= |b| && U32(b, 0) == p.child && U32(b, 4) == |p.wasm|
    && b[8..8 + |p.wasm|] == p.wasm && U32(b, 8 + |p.wasm|) == |p.argv|
  }

  lemma PendingParts(b: Data, p: Pending)
    requires Fits(p) && b == PendingWire(p)
    ensures PendingBody(b, p) && b[12 + |p.wasm|..] == Encode(p.argv)
  {
    hide Encode, U32, Le32;
    var n := |p.wasm|;
    assert b[0..4] == Le32(p.child) && b[4..8] == Le32(n) && b[8..8 + n] == p.wasm;
    assert b[8 + n..12 + n] == Le32(|p.argv|) && b[12 + n..] == Encode(p.argv);
    U32OfLe32(b, 0, p.child);
    U32OfLe32(b, 4, n);
    U32OfLe32(b, 8 + n, |p.argv|);
  }

  lemma PendingWhole(b: Data, p: Pending)
    requires Fits(p) && DecodePending(b) == Some(p)
    ensures PendingBody(b, p) && b == PendingWire(p)
  {
    hide Encode, U32, Le32, Sized, ExactItems;
    var n := |p.wasm|;
    ExactItemsAre(b, 12 + n, p.argv);
    ExactCount(b, 12 + n, U32(b, 8 + n));
    Le32OfU32(b, 0);
    Le32OfU32(b, 4);
    Le32OfU32(b, 8 + n);
    assert b == b[0..4] + (b[4..8] + b[8..8 + n]) + b[8 + n..12 + n] + b[12 + n..];
  }

  lemma ExactCount(b: Data, p: nat, n: nat)
    ensures ExactItems(b, p, n).Some? ==> |ExactItems(b, p, n).value| == n
  {
  }

  /** The host's loop over a drained spawn; None stands for an exception. */
  method DecodePendingSpawn(b: Data) returns (r: Option<Pending>)
    ensures r == DecodePending(b)
  {
    hide U32;
    if |b| < 12 {
      return None;
    }
    var child, wasmLen := U32(b, 0), U32(b, 4);
    var offset := 8;
    if |b| < offset + wasmLen + 4 {
      return None;
    }
    var wasm := b[offset..offset + wasmLen];
    offset := offset + wasmLen;
    var argc := U32(b, offset);
    offset := offset + 4;
    var argv: Argv := [];
    ghost var all := ExactItems(b, offset, argc);
    OrNothing(all, argv);
    for i := 0 to argc
      invariant 0 <= offset <= |b|
      invariant Or(argv, ExactItems(b, offset, argc - i)) == all
    {
      if |b| < offset + 4 {
        return None;
      }
      var len := U32(b, offset);
      offset := offset + 4;
      if |b| < offset + len {
        return None;
      }
      OrOne(argv, b[offset..offset + len], ExactItems(b, offset + len, argc - i - 1));
      argv := argv + [b[offset..offset + len]];
      offset := offset + len;
    }
    if offset != |b| {
      return None;
    }
    OrNothing(all, argv);
    return Some(Pending(child, wasm, argv));
  }

  ghost function Or(argv: Argv, rest: Option<Argv>): Option<Argv> {
    if rest.Some? then Some(argv + rest.value) else None
  }

  lemma OrNothing(rest: Option<Argv>, argv: Argv)
    ensures Or([], rest) == rest && Or(argv, Some([])) == Some(argv)
  {
    if rest.Some? { assert [] + rest.value == rest.value; }
    assert argv + [] == argv;
  }

  lemma OrOne(argv: Argv, a: Data, rest: Option<Argv>)
    ensures rest.Some? ==> Or(argv, Some([a] + rest.value)) == Or(argv + [a], rest)
  {
    if rest.Some? { assert argv + ([a] + rest.value) == argv + [a] + rest.value; }
  }


  /**
   * The kernel's drain: the front of the queue goes into the response and leaves
   * the queue; when the response is too short the queue stays and the length
   * that would do is returned.
   */
  method DrainSpawn(queue: seq<Pending>, response: array<byte>) returns (rc: int, queue': seq<Pending>)
    requires forall i :: 0 <= i < |queue| ==> Fits(queue[i])
    modifies response
    ensures queue == [] ==> rc == -2 && queue' == []
    ensures queue != [] ==> rc == |PendingWire(queue[0])|
    ensures queue != [] && response.Length < rc ==> queue' == queue && response[..] == old(response[..])
    ensures queue != [] && rc <= response.Length ==>
              queue' == queue[1..] && DecodePending(response[..rc]) == Some(queue[0])
  {
    hide Encode, Le32, DecodePending;
    if |queue| == 0 {
      return -ENOENT, queue;
    }
    var spawn := queue[0];
    var size := ItemsSize(spawn.argv);
    var need := 4 + 4 + |spawn.wasm| + 4 + size;
    if response.Length < need {
      return need, queue;
    }
    PutWord(response, 0, spawn.child);
    PutItem(response, 4, spawn.wasm);
    var cur := 8 + |spawn.wasm|;
    PutWord(response, cur, |spawn.argv|);
    PutItems(response, cur + 4, spawn.argv);
    PendingRoundTrip(response[..need], spawn);
    return need, queue[1..];
  }
}
