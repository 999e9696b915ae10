/**
 * The whole of posix_spawn up to the host call: the file actions are resolved, the
 * request is formed and recorded, and the descriptors opened on the way are closed
 * again. Then what the child gets, against what POSIX says it should get.
 */
module PosixSpawn {
  import opened Wrappers
  import opened Bytes
  import opened SpawnRecord
  import opened SpawnRequest
  import opened SpawnFds
  import D = SpawnDecode

  // ---- The request a call makes ----

  /** The path of the last chdir among the first `n` actions. */
  function LastChdir(actions: seq<Action>, n: nat): (r: Option<Data>)
    requires n <= |actions|
    ensures r.None? ==> forall i :: 0 <= i < n ==> !actions[i].Chdir?
    ensures r.Some? ==>
              exists i :: 0 <= i < n && actions[i] == Chdir(r.value) && forall j :: i < j < n ==> !actions[j].Chdir?
  {
    if n == 0 then None
    else if actions[n - 1].Chdir? then Some(actions[n - 1].path)
    else LastChdir(actions, n - 1)
  }

  method ResolveChdir(actions: seq<Action>) returns (cwd: Option<Data>)
    ensures cwd == LastChdir(actions, |actions|)
  {
    cwd := None;
    for i := 0 to |actions|
      invariant cwd == LastChdir(actions, i)
    {
      if actions[i].Chdir? {
        cwd := Some(actions[i].path);
      }
    }
  }

  function StdioFields(t: Table): (s: seq<int>)
    ensures StdioOf(s, t)
  {
    [Stdio(t, 0), Stdio(t, 1), Stdio(t, 2)]
  }

  /** What the caller passes; `opens` is what open() answers to each open action. */
  datatype Call = Call(
    prog: Option<Data>,
    argv: seq<Data>,
    env: seq<Data>,
    actions: seq<Action>,
    opens: seq<int>)

  predicate ActionInts(a: Action) {
    match a
    case Open(fd) => Is32(fd)
    case Close(fd) => Is32(fd)
    case Dup2(src, fd) => Is32(src) && Is32(fd)
    case Chdir(_) => true
  }

  /** Descriptors are C ints, and the lists fit a 32-bit address space. */
  predicate WellTyped(c: Call) {
    && |c.actions| == |c.opens| < U32_LIMIT && |c.argv| < U32_LIMIT && |c.env| < U32_LIMIT
    && (forall i :: 0 <= i < |c.actions| ==> ActionInts(c.actions[i]))
    && (forall i :: 0 <= i < |c.opens| ==> Is32(c.opens[i]))
  }

  /** There is a program and every action can be performed. */
  predicate Resolves(c: Call)
    requires WellTyped(c)
  {
    c.prog.Some? && Fold(c.actions, c.opens, |c.actions|).Some?
  }

  function TableOf(c: Call): Table
    requires WellTyped(c) && Resolves(c)
  {
    Fold(c.actions, c.opens, |c.actions|).value
  }

  function RequestOf(c: Call): Request
    requires WellTyped(c) && Resolves(c)
  {
    Request(c.prog.value, c.argv, c.env, LastChdir(c.actions, |c.actions|),
            StdioFields(TableOf(c)), PassList(TableOf(c)), FdMap(SlotsAfter(c.actions, c.opens, |c.actions|)))
  }

  ghost predicate IntTable(t: Table) {
    forall fd :: fd in t ==> Is32(fd) && (t[fd].Some? ==> Is32(t[fd].value))
  }

  lemma {:induction false} FoldInts(c: Call, n: nat)
    requires WellTyped(c) && n <= |c.actions| && Fold(c.actions, c.opens, n).Some?
    ensures IntTable(Fold(c.actions, c.opens, n).value)
  {
    if n == 0 {
    } else {
      FoldInts(c, n - 1);
      assert ActionInts(c.actions[n - 1]) && Is32(c.opens[n - 1]);
    }
  }

  lemma {:induction false} FdMapSize(slots: seq<Mapping>)
    ensures |FdMap(slots)| <= |slots|
  {
    if slots == [] {
    } else {
      FdMapSize(slots[..|slots| - 1]);
    }
  }

  lemma {:induction false} UntouchedSize(t: Table, fds: seq<int>)
    ensures |Untouched(t, fds)| <= |fds|
  {
    if fds == [] {
    } else {
      UntouchedSize(t, fds[..|fds| - 1]);
    }
  }

  lemma PassListSize(t: Table)
    ensures |PassList(t)| < PASS_LIMIT
  {
    hide Untouched;
    UntouchedSize(t, Range(3, PASS_LIMIT));
  }

  /** The request a well-typed call makes can be recorded. */
  lemma RequestSendable(c: Call)
    requires WellTyped(c) && Resolves(c)
    ensures Sendable(RequestOf(c))
  {
    hide Fold, SlotsAfter, FdMap, PassList, Holds;
    var t, slots := TableOf(c), SlotsAfter(c.actions, c.opens, |c.actions|);
    FoldInts(c, |c.actions|);
    SlotsHold(c.actions, c.opens, |c.actions|);
    FdMapSize(slots);
    PassListSize(t);
    var q := RequestOf(c);
    forall i | 0 <= i < |q.pass| ensures Is32(q.pass[i]) { PassListHas(t, q.pass[i]); }
    forall i | 0 <= i < |q.fdMap| ensures Is32(q.fdMap[i].0) && Is32(q.fdMap[i].1) {
      assert (q.fdMap[i].0, q.fdMap[i].1) in FdMap(slots);
      FdMapHas(slots, t, q.fdMap[i].0, q.fdMap[i].1);
    }
  }

  // ---- The call ----

  /** The parent's descriptors with those opened on the child's behalf. */
  ghost function OpenAfter(parent: set<int>, fds: seq<int>): set<int> {
    parent + (set i | 0 <= i < |fds| :: fds[i])
  }

  /**
   * A record is sent exactly when there is a program, the actions resolve and the
   * request fits 64 KiB, and it then encodes that request. Whatever happens, every
   * descriptor opened on the child's behalf is closed again and no other one is.
   */
  method DoPosixSpawn(c: Call, parent: set<int>)
    returns (record: Option<Data>, ghost r: Regions, parentAfter: set<int>)
    requires WellTyped(c)
    requires forall i :: 0 <= i < |c.opens| ==> c.opens[i] !in parent
    ensures parentAfter == parent
    ensures Resolves(c) ==> Sendable(RequestOf(c))
    ensures record.Some? <==> Resolves(c) && LenAfter(RequestOf(c), 7) <= 65536
    ensures record.Some? ==> |record.value| == LenAfter(RequestOf(c), 7) && Encodes(record.value, r, RequestOf(c))
    ensures record.Some? && D.NativeDecode(record.value).Ok? ==> HostSees(c, D.NativeDecode(record.value).value)
  {
    hide Holds, StdioOf, Fold, PassList, FdMap, Opened, SlotsAfter, Sendable, LenAfter, Encodes, HostSees,
      D.NativeDecode;
    r := map[];
    if Resolves(c) { RequestSendable(c); }
    if c.prog.None? {
      return None, r, parent;
    }
    var cap := if |c.actions| > 0 then |c.actions| else 1;
    var fds := new int[cap];
    var maps := new Mapping[cap](_ => Mapping(0, 0, false));
    var stdio := new int[3];
    var ok, mapCount, openedCount := ResolveSpawnFds(c.actions, c.opens, stdio, maps, fds);
    OpenedAreNew(c.actions, c.opens, Attempted(c.actions, c.opens), parent);
    parentAfter := parent + set i | 0 <= i < openedCount :: fds[i];
    record := None;
    if ok {
      record, r := SendRequest(c, stdio[..], maps[..mapCount]);
      if record.Some? && D.NativeDecode(record.value).Ok? { CallReachesHost(record.value, r, c); }
    }
    parentAfter := CloseAll(fds[..openedCount], parentAfter, parent);
  }

  /** Forms the request from the resolved descriptors and records it. */
  method SendRequest(c: Call, stdio: seq<int>, slots: seq<Mapping>) returns (record: Option<Data>, ghost r: Regions)
    requires WellTyped(c) && Resolves(c) && Sendable(RequestOf(c))
    requires StdioOf(stdio, TableOf(c)) && slots == SlotsAfter(c.actions, c.opens, |c.actions|)
    ensures record.Some? <==> LenAfter(RequestOf(c), 7) <= CAP
    ensures record.Some? ==> |record.value| == LenAfter(RequestOf(c), 7) && Encodes(record.value, r, RequestOf(c))
  {
    hide Holds, StdioOf, Fold, PassList, FdMap, SlotsAfter, LastChdir, Sendable, LenAfter, Encodes;
    ghost var t := TableOf(c);
    StdioUnique(stdio, t);
    SlotsHold(c.actions, c.opens, |c.actions|);
    var cwd := ResolveChdir(c.actions);
    var pass := PassFds(c.actions, c.opens, slots, t);
    var fdMap := BuildFdMap(slots);
    record, r := BuildRecord(Request(c.prog.value, c.argv, c.env, cwd, stdio, pass[..], fdMap[..]));
  }

  lemma StdioUnique(stdio: seq<int>, t: Table)
    requires StdioOf(stdio, t)
    ensures stdio == StdioFields(t)
  {
  }

  lemma {:induction false} OpenedAreNew(actions: seq<Action>, opens: seq<int>, n: nat, parent: set<int>)
    requires n <= |actions| == |opens|
    requires forall i :: 0 <= i < |opens| ==> opens[i] !in parent
    ensures forall i :: 0 <= i < |Opened(actions, opens, n)| ==> Opened(actions, opens, n)[i] !in parent
  {
    if n == 0 {
    } else {
      OpenedAreNew(actions, opens, n - 1, parent);
    }
  }

  method CloseAll(fds: seq<int>, open: set<int>, ghost parent: set<int>) returns (after: set<int>)
    requires open == OpenAfter(parent, fds) && forall i :: 0 <= i < |fds| ==> fds[i] !in parent
    ensures after == parent
  {
    after := open;
    for i := 0 to |fds|
      invariant after == OpenAfter(parent, fds) - set k | 0 <= k < i :: fds[k]
    {
      after := after - {fds[i]};
    }
    assert after == parent;
  }

  /**
   * The native host reads from the record of a call the child table that its file
   * actions mean, for exactly the descriptors below the inheritance limit or
   * touched by an action.
   */
  lemma DescriptorsReachHost(b: Data, r: Regions, c: Call, fd: nat)
    requires WellTyped(c) && Resolves(c) && Sendable(RequestOf(c)) && Encodes(b, r, RequestOf(c))
    requires c.prog.value != [] && D.NamesPresent(EnvPairs(c.env))
    ensures D.NativeDecode(b).Ok? && |D.NativeDecode(b).value.stdio| == 3
    ensures var n := D.NativeDecode(b).value;
            ReadBack(n.stdio, n.pass, n.fdMap, fd) == Lookup(TableOf(c), fd) <==> fd < PASS_LIMIT || fd in TableOf(c)
  {
    hide Encodes, Sendable, D.NativeDecode, Fold, Holds, PassList, FdMap, StdioOf, ReadBack, SlotsAfter;
    D.NativeReadsBack(b, r, RequestOf(c));
    SlotsHold(c.actions, c.opens, |c.actions|);
    RequestMeansTable(c.actions, c.opens, RequestOf(c).stdio, SlotsAfter(c.actions, c.opens, |c.actions|), fd);
  }

  predicate HasChdir(actions: seq<Action>) {
    exists i :: 0 <= i < |actions| && actions[i].Chdir?
  }

  /**
   * What a call tells the native host: the program, the whole argument vector, the
   * environment, and the directory of its last chdir unless that is empty.
   */
  ghost predicate HostSees(c: Call, n: D.Native) {
    && c.prog == Some(n.prog)
    && c.argv == (if n.argv0.None? then [] else [n.argv0.value] + n.args) && (n.argv0.None? ==> n.args == [])
    && n.env == EnvPairs(c.env)
    && (forall i | 0 <= i < |c.actions| && c.actions[i].Chdir? && !HasChdir(c.actions[i + 1..]) ::
          n.cwd == if c.actions[i].path == [] then None else Some(c.actions[i].path))
    && (!HasChdir(c.actions) ==> n.cwd == None)
  }

  /** Every record of a call that the native reader accepts says what was called. */
  lemma CallReachesHost(b: Data, r: Regions, c: Call)
    requires WellTyped(c) && Resolves(c) && Sendable(RequestOf(c)) && Encodes(b, r, RequestOf(c))
    requires D.NativeDecode(b).Ok?
    ensures HostSees(c, D.NativeDecode(b).value)
  {
    hide Encodes, Sendable, D.NativeDecode, Fold, PassList, FdMap, SlotsAfter, LastChdir, EnvPairs;
    D.NativeReadsBack(b, r, RequestOf(c));
    if c.argv != [] { assert c.argv == [c.argv[0]] + c.argv[1..]; }
    forall i | 0 <= i < |c.actions| && c.actions[i].Chdir? && !HasChdir(c.actions[i + 1..])
      ensures LastChdir(c.actions, |c.actions|) == Some(c.actions[i].path)
    {
      LastChdirAt(c.actions, i);
    }
  }

  lemma LastChdirAt(actions: seq<Action>, i: nat)
    requires i < |actions| && actions[i].Chdir? && !HasChdir(actions[i + 1..])
    ensures LastChdir(actions, |actions|) == Some(actions[i].path)
  {
    forall j | i < j < |actions| ensures !actions[j].Chdir? { assert actions[i + 1..][j - i - 1] == actions[j]; }
    var r := LastChdir(actions, |actions|);
    hide LastChdir;
    var k :| 0 <= k < |actions| && actions[k] == Chdir(r.value) && forall j :: k < j < |actions| ==> !actions[j].Chdir?;
    assert k == i;
  }

  // ---- Against POSIX ----

  /** The child's descriptor when it starts with the parent's open ones. */
  function PosixLookup(t: Table, parent: set<int>, fd: int): Option<int> {
    if fd in t then t[fd] else if fd in parent then Some(fd) else None
  }

  /**
   * One action; close and dup2 fail on a number that is no descriptor of the child
   * (`posix_spawn()` fails as `close()`, `dup2()` and `open()` do).
   */
  function PosixApply(t: Table, parent: set<int>, a: Action, got: int): Option<Table> {
    match a
    case Open(fd) => if got < 0 || fd < 0 then None else Some(t[fd := Some(got)])
    case Close(fd) => if fd < 0 || PosixLookup(t, parent, fd).None? then None else Some(t[fd := None])
    case Dup2(src, fd) =>
      if src < 0 || PosixLookup(t, parent, src).None? || fd < 0 then None
      else Some(t[fd := PosixLookup(t, parent, src)])
    case Chdir(_) => Some(t)
  }

  /** The actions performed in order on such a child (`posix_spawn()`, System Interfaces volume of POSIX). */
  function PosixFold(actions: seq<Action>, opens: seq<int>, parent: set<int>, n: nat): Option<Table>
    requires n <= |actions| == |opens|
  {
    if n == 0 then Some(map[]) else
    var before := PosixFold(actions, opens, parent, n - 1);
    if before.None? then None else PosixApply(before.value, parent, actions[n - 1], opens[n - 1])
  }

  /** A dup2 from, or a close of, a number that is no descriptor of the child. */
  predicate Stray(t: Table, parent: set<int>, a: Action) {
    || (a.Dup2? && PosixLookup(t, parent, a.src).None?)
    || (a.Close? && PosixLookup(t, parent, a.fd).None?)
  }

  predicate NoStray(actions: seq<Action>, opens: seq<int>, parent: set<int>, n: nat)
    requires n <= |actions| == |opens| && Fold(actions, opens, n).Some?
  {
    n == 0 || (NoStray(actions, opens, parent, n - 1) &&
               !Stray(Fold(actions, opens, n - 1).value, parent, actions[n - 1]))
  }

  /** Where the code resolves the actions POSIX does too, to the same table, unless an action is stray. */
  lemma {:induction false} PosixFoldIs(actions: seq<Action>, opens: seq<int>, parent: set<int>, n: nat)
    requires n <= |actions| == |opens|
    ensures PosixFold(actions, opens, parent, n).Some? <==>
            Fold(actions, opens, n).Some? && NoStray(actions, opens, parent, n)
    ensures PosixFold(actions, opens, parent, n).Some? ==>
              PosixFold(actions, opens, parent, n) == Fold(actions, opens, n)
  {
    if n == 0 {
    } else {
      PosixFoldIs(actions, opens, parent, n - 1);
    }
  }

  /** The parent's descriptors while the host runs the spawn. */
  ghost function OpenNow(c: Call, parent: set<int>): set<int>
    requires WellTyped(c)
  {
    OpenAfter(parent, Opened(c.actions, c.opens, |c.actions|))
  }

  /** The host hands over what the request names and the parent has open. */
  ghost function ChildGets(q: Request, now: set<int>, fd: int): Option<int>
    requires |q.stdio| == 3 && fd >= 0
  {
    var p := ReadBack(q.stdio, q.pass, q.fdMap, fd);
    if p.Some? && p.value in now then p else None
  }

  lemma {:induction false} ValuesAreOpen(actions: seq<Action>, opens: seq<int>, parent: set<int>, n: nat, fd: int)
    requires n <= |actions| == |opens| && PosixFold(actions, opens, parent, n).Some?
    ensures var p := PosixLookup(PosixFold(actions, opens, parent, n).value, parent, fd);
            p.Some? ==> p.value in OpenAfter(parent, Opened(actions, opens, n))
  {
    if n == 0 {
    } else {
      ValuesAreOpen(actions, opens, parent, n - 1, fd);
      var a, got := actions[n - 1], opens[n - 1];
      if a.Dup2? { ValuesAreOpen(actions, opens, parent, n - 1, a.src); }
      OpenGrows(actions, opens, parent, n);
    }
  }

  lemma OpenGrows(actions: seq<Action>, opens: seq<int>, parent: set<int>, n: nat)
    requires 0 < n <= |actions| == |opens|
    ensures OpenAfter(parent, Opened(actions, opens, n - 1)) <= OpenAfter(parent, Opened(actions, opens, n))
    ensures actions[n - 1].Open? && opens[n - 1] >= 0 ==> opens[n - 1] in OpenAfter(parent, Opened(actions, opens, n))
  {
    var less, more := Opened(actions, opens, n - 1), Opened(actions, opens, n);
    forall x | x in OpenAfter(parent, less) ensures x in OpenAfter(parent, more) {
      if x !in parent {
        var i :| 0 <= i < |less| && less[i] == x;
        assert more[i] == x;
      }
    }
    if actions[n - 1].Open? && opens[n - 1] >= 0 { assert more[|less|] == opens[n - 1]; }
  }

  /** A descriptor opened in the parent for an action, which no action names and which the list hands on. */
  predicate Leaks(c: Call, fd: int)
    requires WellTyped(c) && Resolves(c)
  {
    0 <= fd < PASS_LIMIT && fd in Opened(c.actions, c.opens, |c.actions|) && fd !in TableOf(c)
  }

  /** A descriptor of the parent that no action names and that is too high for the list. */
  predicate Misses(c: Call, parent: set<int>, fd: int)
    requires WellTyped(c) && Resolves(c)
  {
    fd >= PASS_LIMIT && fd in parent && fd !in TableOf(c)
  }

  /** What the child gets differs from POSIX exactly for the leaked and the missed descriptors. */
  lemma ChildGetsPosix(c: Call, parent: set<int>, fd: int)
    requires WellTyped(c) && Resolves(c) && fd >= 0
    requires forall i :: 0 <= i < |c.opens| ==> c.opens[i] !in parent
    requires NoStray(c.actions, c.opens, parent, |c.actions|)
    ensures ChildGets(RequestOf(c), OpenNow(c, parent), fd) == PosixLookup(TableOf(c), parent, fd) <==>
            !Leaks(c, fd) && !Misses(c, parent, fd)
  {
    hide Fold, Holds, PassList, FdMap, StdioOf, ReadBack, SlotsAfter, Opened, NoStray, PosixFold;
    var n, q := |c.actions|, RequestOf(c);
    PosixFoldIs(c.actions, c.opens, parent, n);
    ValuesAreOpen(c.actions, c.opens, parent, n, fd);
    SlotsHold(c.actions, c.opens, n);
    RequestMeansTable(c.actions, c.opens, q.stdio, SlotsAfter(c.actions, c.opens, n), fd);
    OpenedAreNew(c.actions, c.opens, n, parent);
    assert fd in OpenNow(c, parent) <==> fd in parent || fd in Opened(c.actions, c.opens, n);
  }

  /** POSIX performs the actions, and the child gets what it says. */
  ghost predicate MeansPosix(c: Call, parent: set<int>)
    requires WellTyped(c) && Resolves(c)
  {
    && PosixFold(c.actions, c.opens, parent, |c.actions|).Some?
    && forall fd :: fd >= 0 ==>
         ChildGets(RequestOf(c), OpenNow(c, parent), fd) ==
         PosixLookup(PosixFold(c.actions, c.opens, parent, |c.actions|).value, parent, fd)
  }

  /**
   * The request means what POSIX says exactly when no dup2 and no close takes a
   * number that is no descriptor of the child, every descriptor the parent opened
   * for an action is named by some action or too high to be inherited, and every
   * other descriptor of the parent is named by some action or low enough.
   */
  lemma MeansPosixExactlyWhen(c: Call, parent: set<int>)
    requires WellTyped(c) && Resolves(c)
    requires forall i :: 0 <= i < |c.opens| ==> c.opens[i] !in parent
    ensures MeansPosix(c, parent) <==>
            && NoStray(c.actions, c.opens, parent, |c.actions|)
            && (forall fd :: !Leaks(c, fd)) && (forall fd :: !Misses(c, parent, fd))
  {
    hide Fold, PassList, FdMap, LastChdir, SlotsAfter, Opened, NoStray, PosixFold, ChildGets;
    PosixFoldIs(c.actions, c.opens, parent, |c.actions|);
    if NoStray(c.actions, c.opens, parent, |c.actions|) {
      forall fd | fd >= 0
        ensures (ChildGets(RequestOf(c), OpenNow(c, parent), fd) == PosixLookup(TableOf(c), parent, fd)) ==
                (!Leaks(c, fd) && !Misses(c, parent, fd))
      {
        ChildGetsPosix(c, parent, fd);
      }
    }
  }

  // ---- An input for each way to fail ----

  /** A call with one action and the answer of its open. */
  function OneAction(a: Action, got: int): Call { Call(Some([]), [], [], [a], [got]) }

  lemma OneFold(a: Action, got: int, parent: set<int>)
    ensures Fold([a], [got], 1) == Apply(map[], a, got)
    ensures PosixFold([a], [got], parent, 1) == PosixApply(map[], parent, a, got)
  {
    assert Fold([a], [got], 0) == Some(map[]) && PosixFold([a], [got], parent, 0) == Some(map[]);
  }

  /** An open for one descriptor, answered with another number that no action names, leaks that number. */
  lemma OpenLeaks(fd: int, got: int, parent: set<int>)
    requires 0 <= fd < 0x8000_0000 && 0 <= got < 2048 && got != fd && got !in parent
    ensures var c := OneAction(Open(fd), got); WellTyped(c) && Resolves(c) && Leaks(c, got) && !MeansPosix(c, parent)
  {
    var c := OneAction(Open(fd), got);
    OneFold(Open(fd), got, parent);
    assert Opened(c.actions, c.opens, 1) == Opened(c.actions, c.opens, 0) + [got];
    hide MeansPosix, Fold, PosixFold;
    MeansPosixExactlyWhen(c, parent);
  }

  /** The code takes a dup2 from a number that is no descriptor of the child. */
  lemma DupTakesStray(src: int, fd: int, parent: set<int>)
    requires 0 <= src < 0x8000_0000 && 0 <= fd < 0x8000_0000 && src !in parent
    ensures var c := OneAction(Dup2(src, fd), -1); WellTyped(c) && Resolves(c) && !MeansPosix(c, parent)
  {
    OneFold(Dup2(src, fd), -1, parent);
    hide ChildGets, RequestOf;
  }

  /** And a close of such a number. */
  lemma CloseTakesStray(fd: int, parent: set<int>)
    requires 0 <= fd < 0x8000_0000 && fd !in parent
    ensures var c := OneAction(Close(fd), -1); WellTyped(c) && Resolves(c) && !MeansPosix(c, parent)
  {
    OneFold(Close(fd), -1, parent);
    hide ChildGets, RequestOf;
  }

  /** Without any action a descriptor from 2048 on does not reach the child. */
  lemma HighIsMissed(fd: int, parent: set<int>)
    requires fd >= 2048 && fd in parent
    ensures var c := Call(Some([]), [], [], [], []); WellTyped(c) && Resolves(c) && !MeansPosix(c, parent)
  {
    var c := Call(Some([]), [], [], [], []);
    hide MeansPosix, PosixFold;
    assert Misses(c, parent, fd);
    MeansPosixExactlyWhen(c, parent);
  }

  // ---- The working directory ----

  const SLASH: byte := 47

  predicate Absolute(path: Data) { path != [] && path[0] == SLASH }

  /** The chdir actions in order. */
  function Chdirs(actions: seq<Action>, n: nat): seq<Data>
    requires n <= |actions|
  {
    if n == 0 then []
    else Chdirs(actions, n - 1) + if actions[n - 1].Chdir? then [actions[n - 1].path] else []
  }

  /** Where a process ends up that starts in `dir` and changes directory along `paths`. */
  function Walk(step: (Data, Data) -> Data, dir: Data, paths: seq<Data>): Data {
    if paths == [] then dir else step(Walk(step, dir, paths[..|paths| - 1]), paths[|paths| - 1])
  }

  /** Where the child starts when the request carries `cwd`. */
  function StartsIn(step: (Data, Data) -> Data, dir: Data, cwd: Option<Data>): Data {
    if cwd.None? then dir else step(dir, cwd.value)
  }

  /** An absolute path leads to the same place from everywhere. */
  ghost predicate IsTree(step: (Data, Data) -> Data) {
    forall d, e, path :: Absolute(path) ==> step(d, path) == step(e, path)
  }

  /** There is at most one chdir, or the last one is absolute. */
  predicate LastSuffices(actions: seq<Action>) {
    var paths := Chdirs(actions, |actions|);
    |paths| <= 1 || Absolute(paths[|paths| - 1])
  }

  lemma {:induction false} LastOfChdirs(actions: seq<Action>, n: nat)
    requires n <= |actions|
    ensures var paths := Chdirs(actions, n);
            LastChdir(actions, n) == if paths == [] then None else Some(paths[|paths| - 1])
  {
    if n == 0 {
    } else {
      LastOfChdirs(actions, n - 1);
    }
  }

  /** In every tree of directories the last chdir alone leads where all of them do, if it suffices. */
  lemma LastChdirWins(step: (Data, Data) -> Data, dir: Data, actions: seq<Action>)
    requires IsTree(step) && LastSuffices(actions)
    ensures Walk(step, dir, Chdirs(actions, |actions|)) == StartsIn(step, dir, LastChdir(actions, |actions|))
  {
    LastOfChdirs(actions, |actions|);
    hide Chdirs, LastChdir;
    var paths := Chdirs(actions, |actions|);
    if |paths| == 1 { assert paths[..0] == []; }
  }

  /** Directories named by the text of the way to them. */
  function Join(dir: Data, path: Data): Data {
    if path != [] && path[0] == 47 then path else dir + [SLASH] + path
  }

  /** And only if it suffices: otherwise it leads elsewhere, already where directories are named by their paths. */
  lemma LastChdirExactlyWhen(actions: seq<Action>)
    ensures LastSuffices(actions) <==>
            forall dir :: Walk(Join, dir, Chdirs(actions, |actions|)) ==
                          StartsIn(Join, dir, LastChdir(actions, |actions|))
  {
    if LastSuffices(actions) {
      forall dir ensures Walk(Join, dir, Chdirs(actions, |actions|)) ==
                         StartsIn(Join, dir, LastChdir(actions, |actions|)) {
        LastChdirWins(Join, dir, actions);
      }
    } else {
      LastOfChdirs(actions, |actions|);
      var paths := Chdirs(actions, |actions|);
      var last, earlier := paths[|paths| - 1], paths[..|paths| - 1];
      assert Walk(Join, [], paths) == Walk(Join, [], earlier) + [SLASH] + last;
      assert |Walk(Join, [], earlier)| > 0;
    }
  }
}
