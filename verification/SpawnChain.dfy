/**
 * From posix_spawn to the child: the arguments the C library put into the record
 * are the ones the kernel queues and the host hands to the new process.
 */
module SpawnChain {
  import opened Wrappers
  import opened Bytes
  import opened SpawnRecord
  import opened SpawnRequest
  import D = SpawnDecode
  import W = ArgvWire

  /** The arguments host_spawn forwards: argv[0], or the program when there is none. */
  function Forwarded(h: D.Host): seq<Data> {
    [if h.argv0.Some? then h.argv0.value else h.prog] + h.args
  }

  /** The arguments a request means for the child. */
  function ChildArgv(q: Request): seq<Data> {
    if q.argv == [] then [q.prog] else q.argv
  }

  /** Every argument stands in the record. */
  lemma ArgumentsFit(b: Data, r: Regions, q: Request)
    requires Sendable(q) && Encodes(b, r, q)
    ensures |q.prog| <= CAP && forall i :: 0 <= i < |q.argv| ==> |q.argv[i]| <= CAP
  {
    hide Laid, U32, WordAt;
    assert FieldOk(r, |b|, q, 1) && FieldOk(r, |b|, q, 2) && FieldOk(r, |b|, q, 3);
    forall i | 0 <= i < |q.argv| ensures |q.argv[i]| <= CAP {
      if i > 0 {
        assert q.Args()[i - 1] == q.argv[i];
        StringFits(r, |b|, 24, q.Args(), i - 1);
      }
    }
  }

  lemma StringFits(r: Regions, len: nat, field: nat, strings: seq<Data>, i: nat)
    requires |strings| < U32_LIMIT && VecAt(r, len, field, strings, |strings|) && i < |strings|
    ensures |strings[i]| <= len
  {
    hide U32, WordAt;
    var vec := U32(r[field], 0);
    assert SpanAt(r, len, vec + 8 * i, vec + 8 * |strings|, strings[i]);
  }

  /**
   * For every record the C library builds, with a program name, the kernel reads
   * the path and the argument vector of the request from the wire, and the
   * pending spawn it serialises gives the host that same vector, empty strings
   * included.
   */
  lemma ArgvReachesChild(b: Data, r: Regions, q: Request, child: u32, wasm: Data)
    requires Sendable(q) && Encodes(b, r, q) && q.prog != [] && |wasm| < U32_LIMIT
    ensures D.HostDecode(b).Ok?
    ensures var h := D.HostDecode(b).value;
            && |h.prog| < U32_LIMIT && W.Sized(Forwarded(h))
            && W.KernelParse(W.SpawnWire(h.prog, Forwarded(h))) == Ok((q.prog, ChildArgv(q)))
    ensures W.Fits(W.Pending(child, wasm, ChildArgv(q)))
    ensures var p := W.Pending(child, wasm, ChildArgv(q)); W.DecodePending(W.PendingWire(p)) == Some(p)
  {
    hide Encodes, D.HostDecode, W.KernelParse, W.SpawnWire, W.PendingWire, W.DecodePending;
    D.HostReadsBack(b, r, q);
    ArgumentsFit(b, r, q);
    var h := D.HostDecode(b).value;
    assert Forwarded(h) == ChildArgv(q) by {
      if q.argv != [] { assert [q.argv[0]] + q.argv[1..] == q.argv; }
    }
    W.KernelReadsWire(h.prog, Forwarded(h));
    var p := W.Pending(child, wasm, ChildArgv(q));
    W.PendingRoundTrip(W.PendingWire(p), p);
  }
}
