/**
 * Blocking waits in the Deno host: each waiter reads the exit version of its
 * target, asks the kernel, and parks only if the version has not moved since.
 * Waiters, kernel calls and exit reports interleave in any order.
 */
module ExitWait {
  import opened Wrappers
  import opened Sequences
  import opened Kernel
  import K = Kernel

  type Wid = nat

  // ---- The registry ----

  datatype Registry = Registry(versions: map<Pid, nat>, waiters: map<Pid, seq<Wid>>) {

    function Version(pid: Pid): nat { if pid in versions then versions[pid] else 0 }

    function Waiting(pid: Pid): seq<Wid> { if pid in waiters then waiters[pid] else [] }

    /** waitForProcessExit: whether the waiter parks. */
    predicate Parks(pid: Pid, version: nat) { Version(pid) == version }

    function Park(pid: Pid, w: Wid): Registry {
      Registry(versions, waiters[pid := Waiting(pid) + [w]])
    }

    /** notifyProcessExit: the waiters that were parked are resolved and forgotten. */
    function Notify(pid: Pid): Registry {
      Registry(versions[pid := Version(pid) + 1], waiters - {pid})
    }
  }

  /** The registry as the host holds it. */
  class ProcessHostRegistry {
    var exitVersions: map<Pid, nat>
    var exitWaiters: map<Pid, seq<Wid>>
    var kernel: Kernel

    function Value(): Registry
      reads this
    {
      Registry(exitVersions, exitWaiters)
    }

    constructor (k: Kernel)
      ensures Value() == Registry(map[], map[]) && kernel == k
    {
      exitVersions, exitWaiters, kernel := map[], map[], k;
    }

    method ProcessExitVersion(pid: Pid) returns (version: nat)
      ensures version == Value().Version(pid)
    {
      version := 0;
      if pid in exitVersions {
        version := exitVersions[pid];
      }
    }

    /** Parks `w` and leaves its promise pending, or resolves it at once. */
    method WaitForProcessExit(pid: Pid, version: nat, w: Wid) returns (pending: bool)
      modifies this`exitWaiters
      ensures pending <==> old(Value()).Parks(pid, version)
      ensures Value() == if pending then old(Value()).Park(pid, w) else old(Value())
    {
      var now := ProcessExitVersion(pid);
      if now != version {
        return false;
      }
      var waiters := if pid in exitWaiters then exitWaiters[pid] else [];
      waiters := waiters + [w];
      exitWaiters := exitWaiters[pid := waiters];
      return true;
    }

    method NotifyProcessExit(pid: Pid) returns (resolved: seq<Wid>)
      modifies this`exitVersions, this`exitWaiters
      ensures Value() == old(Value()).Notify(pid) && resolved == old(Value()).Waiting(pid)
    {
      var version := ProcessExitVersion(pid);
      exitVersions := exitVersions[pid := version + 1];
      if pid !in exitWaiters {
        assert exitWaiters - {pid} == exitWaiters;
        return [];
      }
      var waiters := exitWaiters[pid];
      exitWaiters := exitWaiters - {pid};
      resolved := [];
      for i := 0 to |waiters|
        invariant resolved == waiters[..i]
      {
        resolved := resolved + [waiters[i]];
      }
    }

    /** Unknown pids throw before anything is notified. */
    method RecordExit(pid: Pid, status: int) returns (ok: bool, resolved: seq<Wid>)
      modifies this
      ensures (kernel, ok) == old(K.RecordExit(kernel, pid, status))
      ensures Value() == if ok then old(Value()).Notify(pid) else old(Value())
      ensures resolved == if ok then old(Value()).Waiting(pid) else []
    {
      var (k, known) := K.RecordExit(kernel, pid, status);
      kernel := k;
      ok, resolved := known, [];
      if ok {
        resolved := NotifyProcessExit(pid);
      }
    }
  }

  // ---- The protocol ----

  /** Where a host_wait call stands. */
  datatype Pc =
    | Calling(version: nat)
    | Returned(version: nat, answer: WaitResult)
    | Parked(version: nat)
    | Woken
    | Done(result: WaitResult)

  /** One call: its target, the version it read first, how often it asked the kernel. */
  datatype Waiter = Waiter(caller: Pid, want: Pid, pc: Pc, first: nat, tries: nat)

  datatype State = State(k: Kernel, r: Registry, ws: map<Wid, Waiter>)

  datatype Step =
    | Begin(w: Wid, caller: Pid, want: Pid)
    | Execute(w: Wid)
    | Resume(w: Wid)
    | Exit(pid: Pid, status: int)
    | SpawnChild(caller: Pid, image: Guest)

  function At(s: State, w: Wid, pc: Pc): State
    requires w in s.ws
  {
    s.(ws := s.ws[w := s.ws[w].(pc := pc)])
  }

  predicate Loops(x: Waiter, answer: WaitResult) { answer == Again && x.want > 0 }

  predicate Enabled(s: State, step: Step) {
    match step
    case Begin(w, caller, _) => w !in s.ws && caller in s.k.procs
    case Execute(w) => w in s.ws && s.ws[w].pc.Calling? && s.ws[w].caller in s.k.procs
    case Resume(w) => w in s.ws && (s.ws[w].pc.Returned? || s.ws[w].pc.Woken?)
    case Exit(_, _) => true
    case SpawnChild(caller, _) => caller in s.k.procs
  }

  /** The kernel runs the call at some moment after it was made. */
  function ExecuteStep(s: State, w: Wid): State
    requires Enabled(s, Execute(w))
  {
    var x := s.ws[w];
    var (k, answer) := SysWait(s.k, x.caller, x.want);
    At(s, w, Returned(x.pc.version, answer)).(k := k)
  }

  /** The call goes on: it parks, is let through because the version moved, asks again, or ends. */
  function ResumeStep(s: State, w: Wid): State
    requires Enabled(s, Resume(w))
  {
    var x := s.ws[w];
    if x.pc.Woken? then s.(ws := s.ws[w := x.(pc := Calling(s.r.Version(x.want)), tries := x.tries + 1)])
    else if !Loops(x, x.pc.answer) then At(s, w, Done(x.pc.answer))
    else if s.r.Parks(x.want, x.pc.version) then At(s, w, Parked(x.pc.version)).(r := s.r.Park(x.want, w))
    else At(s, w, Woken)
  }

  /** The resolved waiters become runnable. */
  function Wake(ws: map<Wid, Waiter>, woken: seq<Wid>): (r: map<Wid, Waiter>)
    ensures r.Keys == ws.Keys
    ensures forall w :: w in ws ==> r[w] == if w in woken then ws[w].(pc := Woken) else ws[w]
  {
    map w | w in ws :: if w in woken then ws[w].(pc := Woken) else ws[w]
  }

  function ExitStep(s: State, pid: Pid, status: int): State {
    var (k, known) := K.RecordExit(s.k, pid, status);
    if known then State(k, s.r.Notify(pid), Wake(s.ws, s.r.Waiting(pid))) else s
  }

  function Next(s: State, step: Step): State
    requires Enabled(s, step)
  {
    match step
    case Begin(w, caller, want) =>
      var v := s.r.Version(want);
      s.(ws := s.ws[w := Waiter(caller, want, Calling(v), v, 1)])
    case Execute(w) => ExecuteStep(s, w)
    case Resume(w) => ResumeStep(s, w)
    case Exit(pid, status) => ExitStep(s, pid, status)
    case SpawnChild(caller, image) => s.(k := SysSpawn(s.k, caller, image).0)
  }

  /** All steps of a run can be taken. */
  predicate Run(s: State, steps: seq<Step>)
    decreases |steps|
  {
    steps == [] || (Enabled(s, steps[0]) && Run(Next(s, steps[0]), steps[1..]))
  }

  function End(s: State, steps: seq<Step>): State
    requires Run(s, steps)
    decreases |steps|
  {
    if steps == [] then s else End(Next(s, steps[0]), steps[1..])
  }

  // ---- What every step keeps ----

  predicate Exited(k: Kernel, pid: Pid) { pid in k.procs && k.procs[pid].exit.Some? }

  /** A child has one parent, and every child is a process. */
  ghost predicate Family(k: Kernel) {
    && (forall p, c :: p in k.procs && c in k.procs[p].children ==> c in k.procs)
    && (forall p, q, c :: p in k.procs && q in k.procs && c in k.procs[p].children && c in k.procs[q].children ==>
          p == q)
  }

  /** What a waiter may believe. */
  ghost predicate WaiterOk(k: Kernel, r: Registry, w: Wid, x: Waiter) {
    && x.caller in k.procs && x.first <= r.Version(x.want)
    && match x.pc
       case Calling(v) => x.first <= v <= r.Version(x.want) && x.tries <= v - x.first + 1
       case Returned(v, answer) =>
         && x.first <= v <= r.Version(x.want) && x.tries <= v - x.first + 1
         && (Loops(x, answer) && v == r.Version(x.want) ==> !Exited(k, x.want))
       case Parked(v) =>
         && x.want > 0 && v == r.Version(x.want) && x.first <= v && x.tries <= v - x.first + 1
         && !Exited(k, x.want) && w in r.Waiting(x.want)
       case Woken => x.want > 0 && x.tries <= r.Version(x.want) - x.first
       case Done(result) => !Loops(x, result) && x.tries <= r.Version(x.want) - x.first + 1
  }

  ghost predicate ListOk(s: State, pid: Pid) {
    && Distinct(s.r.Waiting(pid))
    && forall w :: w in s.r.Waiting(pid) ==> w in s.ws && s.ws[w].pc.Parked? && s.ws[w].want == pid
  }

  ghost predicate Inv(s: State) {
    && Family(s.k)
    && (forall w :: w in s.ws ==> WaiterOk(s.k, s.r, w, s.ws[w]))
    && (forall pid :: ListOk(s, pid))
  }

  /** Nothing is waiting yet. */
  ghost predicate Init(s: State) {
    Family(s.k) && s.r == Registry(map[], map[]) && s.ws == map[]
  }

  lemma InitInv(s: State)
    requires Init(s)
    ensures Inv(s)
  {
  }

  lemma WaitKeeps(k: Kernel, caller: Pid, want: Pid)
    requires Family(k) && caller in k.procs
    ensures var (k', answer) := SysWait(k, caller, want);
            && Family(k') && k'.procs.Keys == k.procs.Keys
            && (forall p :: p in k.procs ==> k'.procs[p].exit == k.procs[p].exit)
            && (answer == Again && want > 0 ==> !Exited(k, want))
  {
  }

  lemma ExecuteKeepsWaiter(s: State, w: Wid, v: Wid)
    requires Inv(s) && Enabled(s, Execute(w)) && v in s.ws
    ensures var s' := ExecuteStep(s, w); WaiterOk(s'.k, s'.r, v, s'.ws[v])
  {
    var x := s.ws[w];
    WaitKeeps(s.k, x.caller, x.want);
    hide SysWait, Family, ListOk;
    assert WaiterOk(s.k, s.r, v, s.ws[v]);
  }

  lemma ExecuteKeepsInv(s: State, w: Wid)
    requires Inv(s) && Enabled(s, Execute(w))
    ensures Inv(ExecuteStep(s, w))
  {
    hide SysWait, Family, WaiterOk;
    var s' := ExecuteStep(s, w);
    WaitKeeps(s.k, s.ws[w].caller, s.ws[w].want);
    forall v | v in s'.ws ensures WaiterOk(s'.k, s'.r, v, s'.ws[v]) { ExecuteKeepsWaiter(s, w, v); }
    forall pid ensures ListOk(s', pid) { assert ListOk(s, pid); }
  }

  lemma ResumeKeepsWaiter(s: State, w: Wid, v: Wid)
    requires Inv(s) && Enabled(s, Resume(w)) && v in s.ws
    ensures var s' := ResumeStep(s, w); WaiterOk(s'.k, s'.r, v, s'.ws[v])
  {
    hide Family, ListOk;
    assert WaiterOk(s.k, s.r, v, s.ws[v]);
  }

  lemma ResumeKeepsList(s: State, w: Wid, pid: Pid)
    requires Inv(s) && Enabled(s, Resume(w))
    ensures ListOk(ResumeStep(s, w), pid)
  {
    hide Family, WaiterOk;
    assert ListOk(s, pid) && ListOk(s, s.ws[w].want);
  }

  lemma ResumeKeepsInv(s: State, w: Wid)
    requires Inv(s) && Enabled(s, Resume(w))
    ensures Inv(ResumeStep(s, w))
  {
    hide Family, WaiterOk, ListOk;
    var s' := ResumeStep(s, w);
    forall v | v in s'.ws ensures WaiterOk(s'.k, s'.r, v, s'.ws[v]) { ResumeKeepsWaiter(s, w, v); }
    forall pid ensures ListOk(s', pid) { ResumeKeepsList(s, w, pid); }
  }

  lemma RecordKeeps(k: Kernel, pid: Pid, status: int)
    requires Family(k)
    ensures var (k', known) := K.RecordExit(k, pid, status);
            && Family(k') && k'.procs.Keys == k.procs.Keys && (known <==> pid in k.procs) && (!known ==> k' == k)
            && (forall p :: p in k.procs && p != pid ==> k'.procs[p] == k.procs[p])
            && (known ==> Exited(k', pid))
  {
  }

  /** An exit wakes exactly the parked waiters of the pid; the others keep what they believe. */
  lemma ExitKeepsWaiter(s: State, pid: Pid, k': Kernel, w: Wid)
    requires w in s.ws && WaiterOk(s.k, s.r, w, s.ws[w]) && ListOk(s, pid) && k'.procs.Keys == s.k.procs.Keys
    requires forall p :: p in s.k.procs && p != pid ==> k'.procs[p] == s.k.procs[p]
    ensures WaiterOk(k', s.r.Notify(pid), w, if w in s.r.Waiting(pid) then s.ws[w].(pc := Woken) else s.ws[w])
  {
  }

  lemma ExitKeepsList(s: State, pid: Pid, s': State, p: Pid)
    requires ListOk(s, p) && ListOk(s, pid) && s'.r == s.r.Notify(pid) && s'.ws == Wake(s.ws, s.r.Waiting(pid))
    ensures ListOk(s', p)
  {
    hide Wake;
  }

  lemma ExitKeepsInv(s: State, pid: Pid, status: int)
    requires Inv(s)
    ensures Inv(ExitStep(s, pid, status))
  {
    hide K.RecordExit, Family, WaiterOk, ListOk, Wake;
    RecordKeeps(s.k, pid, status);
    var s' := ExitStep(s, pid, status);
    if s' != s {
      forall w | w in s'.ws ensures WaiterOk(s'.k, s'.r, w, s'.ws[w]) { ExitKeepsWaiter(s, pid, s'.k, w); }
      forall p ensures ListOk(s', p) { ExitKeepsList(s, pid, s', p); }
    }
  }

  lemma SpawnKeeps(k: Kernel, caller: Pid, image: Guest)
    requires Family(k) && caller in k.procs
    ensures var k' := SysSpawn(k, caller, image).0;
            && Family(k') && k.procs.Keys <= k'.procs.Keys
            && forall p :: p in k'.procs ==> (Exited(k', p) <==> Exited(k, p))
  {
  }

  lemma StepKeepsInv(s: State, step: Step)
    requires Inv(s) && Enabled(s, step)
    ensures Inv(Next(s, step))
  {
    hide SysWait, SysSpawn, K.RecordExit, Family, Wake;
    match step
    case Begin(w, caller, want) => BeginKeepsInv(s, w, caller, want);
    case Execute(w) => ExecuteKeepsInv(s, w);
    case Resume(w) => ResumeKeepsInv(s, w);
    case Exit(pid, status) => ExitKeepsInv(s, pid, status);
    case SpawnChild(caller, image) =>
      SpawnKeeps(s.k, caller, image);
      var s' := Next(s, step);
      forall pid ensures ListOk(s', pid) { assert ListOk(s, pid); }
  }

  lemma BeginKeepsInv(s: State, w: Wid, caller: Pid, want: Pid)
    requires Inv(s) && Enabled(s, Begin(w, caller, want))
    ensures Inv(Next(s, Begin(w, caller, want)))
  {
    hide Family;
    var s' := Next(s, Begin(w, caller, want));
    forall pid ensures ListOk(s', pid) { assert ListOk(s, pid); }
  }

  /** Every reachable state satisfies the invariant. */
  lemma {:induction false} ReachableInv(s: State, steps: seq<Step>)
    requires Inv(s) && Run(s, steps)
    ensures Inv(End(s, steps))
    decreases |steps|
  {
    hide Next, Enabled, Inv;
    if steps == [] {
    } else {
      StepKeepsInv(s, steps[0]);
      ReachableInv(Next(s, steps[0]), steps[1..]);
    }
  }

  // ---- What it means ----

  /**
   * No lost wakeup: in every reachable state a parked waiter holds the current
   * version, its target has not exited, and it is on the list once.
   */
  lemma ParkedIsCurrent(s: State, steps: seq<Step>, w: Wid)
    requires Init(s) && Run(s, steps)
    requires var e := End(s, steps); w in e.ws && e.ws[w].pc.Parked?
    ensures var e := End(s, steps); var x := e.ws[w];
            && x.pc.version == e.r.Version(x.want) && !Exited(e.k, x.want)
            && multiset(e.r.Waiting(x.want))[w] == 1
  {
    InitInv(s);
    ReachableInv(s, steps);
    var e := End(s, steps);
    hide Run, End, Init;
    var x := e.ws[w];
    assert WaiterOk(e.k, e.r, w, x) && ListOk(e, x.want);
    DistinctCount(e.r.Waiting(x.want), w);
  }

  /** An exit of a known process releases every waiter parked on it, and no other waiter moves. */
  lemma ExitReleasesAll(s: State, pid: Pid, status: int, w: Wid)
    requires Inv(s) && pid in s.k.procs && w in s.ws
    ensures var x, x' := s.ws[w], ExitStep(s, pid, status).ws[w];
            x' == if x.pc.Parked? && x.want == pid then x.(pc := Woken) else x
    ensures ExitStep(s, pid, status).r.Waiting(pid) == [] && Exited(ExitStep(s, pid, status).k, pid)
  {
    assert ListOk(s, pid) && WaiterOk(s.k, s.r, w, s.ws[w]);
  }

  /** Exits of the pid that were recorded in a run. */
  function ExitsOf(s: State, steps: seq<Step>, pid: Pid): nat
    requires Run(s, steps)
    decreases |steps|
  {
    if steps == [] then 0 else
    (if steps[0].Exit? && steps[0].pid == pid && pid in s.k.procs then 1 else 0) +
    ExitsOf(Next(s, steps[0]), steps[1..], pid)
  }

  lemma StepVersion(s: State, step: Step, pid: Pid)
    requires Enabled(s, step)
    ensures Next(s, step).r.Version(pid) ==
            s.r.Version(pid) + if step.Exit? && step.pid == pid && pid in s.k.procs then 1 else 0
  {
    hide SysWait, SysSpawn, Wake;
  }

  /** The version counts the exits. */
  lemma {:induction false} VersionCountsExits(s: State, steps: seq<Step>, pid: Pid)
    requires Run(s, steps)
    ensures End(s, steps).r.Version(pid) == s.r.Version(pid) + ExitsOf(s, steps, pid)
    decreases |steps|
  {
    hide Next, Enabled;
    if steps == [] {
    } else {
      StepVersion(s, steps[0], pid);
      VersionCountsExits(Next(s, steps[0]), steps[1..], pid);
    }
  }

  /** No spinning: a call asks the kernel at most once more than exits of its target were recorded. */
  lemma TriesAreBounded(s: State, steps: seq<Step>, w: Wid)
    requires Init(s) && Run(s, steps) && w in End(s, steps).ws
    ensures var x := End(s, steps).ws[w]; x.tries <= 1 + ExitsOf(s, steps, x.want)
  {
    InitInv(s);
    ReachableInv(s, steps);
    var e := End(s, steps);
    VersionCountsExits(s, steps, e.ws[w].want);
    hide Run, End, ExitsOf;
    assert WaiterOk(e.k, e.r, w, e.ws[w]);
  }

  /** A wait for any child asks the kernel once and never waits for an exit. */
  ghost predicate AnyChildOk(s: State) {
    forall w :: w in s.ws && s.ws[w].want == 0 ==> s.ws[w].tries == 1 && !s.ws[w].pc.Parked? && !s.ws[w].pc.Woken?
  }

  lemma AnyChildStep(s: State, step: Step)
    requires Inv(s) && AnyChildOk(s) && Enabled(s, step)
    ensures AnyChildOk(Next(s, step))
  {
    hide SysWait, SysSpawn, K.RecordExit, Wake, Family, WaiterOk;
    if step.Exit? { assert ListOk(s, step.pid); }
  }

  lemma {:induction false} AnyChildAsksOnce(s: State, steps: seq<Step>)
    requires Inv(s) && AnyChildOk(s) && Run(s, steps)
    ensures AnyChildOk(End(s, steps))
    decreases |steps|
  {
    hide Next, Enabled, Inv, AnyChildOk;
    if steps == [] {
    } else {
      StepKeepsInv(s, steps[0]);
      AnyChildStep(s, steps[0]);
      AnyChildAsksOnce(Next(s, steps[0]), steps[1..]);
    }
  }

  /**
   * In every run only a wait for any child ends with EAGAIN. Such a wait does not
   * block: it asks once, and when the kernel answers EAGAIN that is how it ends.
   */
  lemma AgainOnlyForAnyChild(s: State, steps: seq<Step>, w: Wid)
    requires Init(s) && Run(s, steps) && w in End(s, steps).ws
    ensures var e := End(s, steps); var x := e.ws[w];
            && (x.pc == Done(Again) ==> x.want == 0)
            && (x.want == 0 ==> x.tries == 1 && !x.pc.Parked? && !x.pc.Woken?)
            && (x.pc.Returned? && x.pc.answer == Again ==>
                  (Next(e, Resume(w)).ws[w].pc == Done(Again) <==> x.want == 0))
  {
    InitInv(s);
    ReachableInv(s, steps);
    AnyChildAsksOnce(s, steps);
    var e := End(s, steps);
    hide Run, End, Init;
    assert WaiterOk(e.k, e.r, w, e.ws[w]);
  }

  /** Steps a call can still take once its target has exited. */
  function Left(s: State, x: Waiter): nat {
    match x.pc
    case Parked(_) => 5
    case Returned(_, answer) => if Loops(x, answer) then 4 else 1
    case Woken => 3
    case Calling(_) => 2
    case Done(_) => 0
  }

  predicate StepOf(step: Step, w: Wid) {
    (step.Execute? || step.Resume?) && step.w == w
  }

  /**
   * Once the target of a call has exited, the call is never parked, always has a
   * step to take until it ends, each such step brings it nearer its end, and no
   * step of anyone else takes it back.
   */
  lemma EndsAfterExit(s: State, step: Step, w: Wid)
    requires Inv(s) && Enabled(s, step) && w in s.ws && s.ws[w].want > 0 && Exited(s.k, s.ws[w].want)
    ensures !s.ws[w].pc.Parked? && Left(s, s.ws[w]) <= 4
    ensures !s.ws[w].pc.Done? ==> Enabled(s, Execute(w)) || Enabled(s, Resume(w))
    ensures var s' := Next(s, step);
            && w in s'.ws && s'.ws[w].want == s.ws[w].want && Exited(s'.k, s.ws[w].want)
            && if StepOf(step, w) then Left(s', s'.ws[w]) < Left(s, s.ws[w]) else s'.ws[w] == s.ws[w]
  {
    hide Inv, SysWait, SysSpawn, K.RecordExit, Wake;
    ReadyAfterExit(s, w);
    InvParts(s, w);
    match step
    case Execute(v) => WaitKeeps(s.k, s.ws[v].caller, s.ws[v].want);
    case SpawnChild(caller, image) => SpawnKeeps(s.k, caller, image);
    case Exit(pid, status) => ExitSpares(s, pid, status, w);
    case Begin(_, _, _) =>
    case Resume(_) =>
  }

  lemma InvParts(s: State, w: Wid)
    requires Inv(s) && w in s.ws
    ensures Family(s.k) && WaiterOk(s.k, s.r, w, s.ws[w])
  {
  }

  /** An exit leaves a call alone whose target had exited before. */
  lemma ExitSpares(s: State, pid: Pid, status: int, w: Wid)
    requires Inv(s) && w in s.ws && s.ws[w].want > 0 && Exited(s.k, s.ws[w].want)
    ensures var s' := ExitStep(s, pid, status);
            w in s'.ws && s'.ws[w] == s.ws[w] && Exited(s'.k, s.ws[w].want)
  {
    hide K.RecordExit, Wake, Family;
    RecordKeeps(s.k, pid, status);
    assert WaiterOk(s.k, s.r, w, s.ws[w]) && ListOk(s, pid);
  }

  /** The steps of a run that are the call's own. */
  function OwnSteps(steps: seq<Step>, w: Wid): nat {
    if steps == [] then 0 else (if StepOf(steps[0], w) then 1 else 0) + OwnSteps(steps[1..], w)
  }

  /**
   * Once its target has exited a call takes at most four more steps in any run,
   * whatever others do; after four it has ended, and before it ends it has a step to
   * take.
   */
  lemma {:induction false} EndsWithinFourSteps(s: State, steps: seq<Step>, w: Wid)
    requires Inv(s) && Run(s, steps) && w in s.ws && s.ws[w].want > 0 && Exited(s.k, s.ws[w].want)
    ensures var e := End(s, steps);
            && w in e.ws && OwnSteps(steps, w) + Left(e, e.ws[w]) <= Left(s, s.ws[w]) <= 4
            && (OwnSteps(steps, w) == 4 ==> e.ws[w].pc.Done?)
            && (!e.ws[w].pc.Done? ==> Enabled(e, Execute(w)) || Enabled(e, Resume(w)))
    decreases |steps|
  {
    hide Next, Inv, Exited;
    if steps == [] {
      ReadyAfterExit(s, w);
    } else {
      StepKeepsInv(s, steps[0]);
      EndsAfterExit(s, steps[0], w);
      EndsWithinFourSteps(Next(s, steps[0]), steps[1..], w);
    }
  }

  lemma ReadyAfterExit(s: State, w: Wid)
    requires Inv(s) && w in s.ws && s.ws[w].want > 0 && Exited(s.k, s.ws[w].want)
    ensures !s.ws[w].pc.Parked? && Left(s, s.ws[w]) <= 4
    ensures !s.ws[w].pc.Done? ==> Enabled(s, Execute(w)) || Enabled(s, Resume(w))
  {
    assert WaiterOk(s.k, s.r, w, s.ws[w]);
  }

  // ---- Each child is reaped once ----

  /** The child a call was given. */
  function Got(x: Waiter): Option<Pid> {
    match x.pc
    case Returned(_, Reaped(c, _)) => Some(c)
    case Done(Reaped(c, _)) => Some(c)
    case _ => None
  }

  /** A process that exited, that nobody can wait for any more, and that is the one asked for. */
  ghost predicate Collected(k: Kernel, x: Waiter, c: Pid) {
    Exited(k, c) && (x.want > 0 ==> c == x.want) && forall p :: p in k.procs ==> c !in k.procs[p].children
  }

  ghost predicate ReapInv(s: State) {
    && Family(s.k)
    && (forall w :: w in s.ws && Got(s.ws[w]).Some? ==> Collected(s.k, s.ws[w], Got(s.ws[w]).value))
    && (forall v, w :: v in s.ws && w in s.ws && v != w && Got(s.ws[v]).Some? ==> Got(s.ws[v]) != Got(s.ws[w]))
  }

  lemma WaitCollects(k: Kernel, caller: Pid, want: Pid)
    requires Family(k) && caller in k.procs
    ensures var (k', answer) := SysWait(k, caller, want);
            answer.Reaped? ==>
              && answer.pid in k.procs[caller].children && Exited(k', answer.pid)
              && answer.status == k.procs[answer.pid].exit.value
              && (want > 0 ==> answer.pid == want) && forall p :: p in k'.procs ==> answer.pid !in k'.procs[p].children
    ensures forall p, c :: p in k.procs && c !in k.procs[p].children ==>
              c !in SysWait(k, caller, want).0.procs[p].children
  {
  }

  lemma CollectedKept(s: State, step: Step, x: Waiter, c: Pid)
    requires Inv(s) && Enabled(s, step) && Collected(s.k, x, c)
    ensures Collected(Next(s, step).k, x, c)
  {
    match step
    case Execute(w) =>
      WaitKeeps(s.k, s.ws[w].caller, s.ws[w].want);
      WaitCollects(s.k, s.ws[w].caller, s.ws[w].want);
      hide SysWait, Family;
    case Exit(pid, status) => RecordKeeps(s.k, pid, status);
    case SpawnChild(_, _) =>
    case Begin(_, _, _) =>
    case Resume(_) =>
  }

  lemma GotKept(s: State, step: Step, w: Wid)
    requires Inv(s) && Enabled(s, step) && w in Next(s, step).ws && !(step.Execute? && step.w == w)
    ensures Got(Next(s, step).ws[w]) == if w in s.ws then Got(s.ws[w]) else None
    ensures w in s.ws ==> Next(s, step).ws[w].want == s.ws[w].want
  {
    hide SysWait, SysSpawn, Family, WaiterOk;
    if step.Exit? { assert ListOk(s, step.pid); }
  }

  lemma StepKeepsReapInv(s: State, step: Step)
    requires Inv(s) && ReapInv(s) && Enabled(s, step)
    ensures ReapInv(Next(s, step))
  {
    hide SysWait, SysSpawn, Family, Inv, Got, Wake;
    var s' := Next(s, step);
    StepKeepsInv(s, step);
    assert Family(s'.k) by { FamilyOf(s'); }
    forall w | w in s'.ws && !(step.Execute? && step.w == w)
      ensures Got(s'.ws[w]) == if w in s.ws then Got(s.ws[w]) else None
    {
      GotKept(s, step, w);
    }
    forall w | w in s'.ws && Got(s'.ws[w]).Some? ensures Collected(s'.k, s'.ws[w], Got(s'.ws[w]).value) {
      if !(step.Execute? && step.w == w) {
        GotKept(s, step, w);
        CollectedKept(s, step, s.ws[w], Got(s.ws[w]).value);
      } else {
        Executed(s, w);
      }
    }
    if step.Execute? {
      Executed(s, step.w);
    }
  }

  lemma FamilyOf(s: State)
    requires Inv(s)
    ensures Family(s.k)
  {
  }

  /** What the kernel hands out was somebody's child, so no call was given it before. */
  lemma Executed(s: State, w: Wid)
    requires Family(s.k) && Enabled(s, Execute(w))
    ensures var s' := ExecuteStep(s, w); var got := Got(s'.ws[w]);
            got.Some? ==> Collected(s'.k, s'.ws[w], got.value) && forall x: Waiter :: !Collected(s.k, x, got.value)
  {
    WaitCollects(s.k, s.ws[w].caller, s.ws[w].want);
    hide SysWait, Family;
  }

  lemma {:induction false} RunKeepsReapInv(s: State, steps: seq<Step>)
    requires Inv(s) && ReapInv(s) && Run(s, steps)
    ensures ReapInv(End(s, steps))
    decreases |steps|
  {
    hide Next, Enabled, Inv, ReapInv;
    if steps == [] {
    } else {
      StepKeepsInv(s, steps[0]);
      StepKeepsReapInv(s, steps[0]);
      RunKeepsReapInv(Next(s, steps[0]), steps[1..]);
    }
  }

  /**
   * In every run a call that ends with a child got one that had exited and that
   * it asked for, and no other call ever gets that child.
   */
  lemma ReapedOnce(s: State, steps: seq<Step>, w: Wid, v: Wid)
    requires Init(s) && Run(s, steps)
    requires var e := End(s, steps); w in e.ws && v in e.ws && v != w && Got(e.ws[w]).Some?
    ensures var e := End(s, steps); var c := Got(e.ws[w]).value;
            Exited(e.k, c) && (e.ws[w].want > 0 ==> c == e.ws[w].want) && Got(e.ws[v]) != Some(c)
  {
    InitInv(s);
    RunKeepsReapInv(s, steps);
    hide Run, End, Init;
  }

  // ---- The reported status ----

  /** The JavaScript host's split of a status into signal and exit code. */
  function SplitStatus(status: int): (int, int) {
    var signal := if 128 <= status < 192 then status - 128 else 0;
    (signal, if signal == 0 then status else 0)
  }

  /** The Deno host's. */
  function SplitStatusDeno(status: int): (int, int) {
    var signal := if 128 < status <= 192 then status - 128 else 0;
    (signal, if signal == 0 then status else 0)
  }

  /** The hosts report the same for every status but 192, where only one sees signal 64. */
  lemma StatusesAgree(status: int)
    ensures SplitStatus(status) == SplitStatusDeno(status) <==> status != 192
  {
  }

  // ---- Runs ----

  /** There is a state to start from, and an enabled step makes a run longer. */
  lemma {:induction false} RunGrows(s: State, steps: seq<Step>, step: Step)
    requires Run(s, steps) && Enabled(End(s, steps), step)
    ensures Run(s, steps + [step]) && End(s, steps + [step]) == Next(End(s, steps), step)
    decreases |steps|
  {
    hide Next, Enabled;
    if steps == [] {
      assert [step][1..] == [] && steps + [step] == [step];
    } else {
      RunGrows(Next(s, steps[0]), steps[1..], step);
      assert (steps + [step])[1..] == steps[1..] + [step];
    }
  }

  lemma RunsStart(k: Kernel)
    requires Family(k)
    ensures Init(State(k, Registry(map[], map[]), map[])) && Run(State(k, Registry(map[], map[]), map[]), [])
  {
  }
}
