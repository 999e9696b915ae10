/**
 * The spawn pump as a value: the kernel, the engine's tables and depth
 * counter, and the run stack and logs that the engine's methods keep implicitly
 * on the host's call stack. Every step of the pump is a function here, and
 * every step keeps `Inv`.
 */
module PumpState {
  import opened Wrappers
  import opened Sequences
  import opened Kernel

  type Handle = nat

  const MAX_DRAIN_DEPTH := 256
  const RUNAWAY_LIMIT := 100_000
  const CHILD_TRAP_EXIT := 134

  /** Life of a drained child: taken from the queue, registered and running, deregistered. */
  datatype Stage = Drained | Registered(handle: Handle) | Done

  datatype Frame =
    | Root(pid: Pid)                   // a process the embedder started
    | Child(pid: Pid, stage: Stage)    // a child the pump runs
    | WaitDrain                        // a drain inside host_wait

  /** A call that returned to its guest: a spawn with the child, or a wait with the pid asked for and the answer. */
  datatype Act = Forked(child: Option<Pid>) | Asked(want: Pid, answer: WaitResult)

  type Entry = (Pid, Act)

  datatype World = World(
    k: Kernel,
    depth: nat,
    instances: map<Handle, Pid>,
    handles: map<Pid, Handle>,
    nextHandle: Handle,
    stack: seq<Frame>,
    spawned: seq<Pid>,
    ran: seq<Pid>,
    exits: seq<(Pid, int)>,
    acts: seq<Entry>,
    images: map<Pid, Guest>,
    baseInstances: map<Handle, Pid>,
    baseHandles: map<Pid, Handle>)

  // ---- Vocabulary ----

  function Pids(q: seq<Pending>): (s: seq<Pid>)
    ensures |s| == |q|
    ensures forall i :: 0 <= i < |q| ==> s[i] == q[i].child
  {
    seq(|q|, i requires 0 <= i < |q| => q[i].child)
  }

  function ExitPids(e: seq<(Pid, int)>): (s: seq<Pid>)
    ensures |s| == |e|
    ensures forall i :: 0 <= i < |e| ==> s[i] == e[i].0
  {
    seq(|e|, i requires 0 <= i < |e| => e[i].0)
  }

  predicate IsProc(f: Frame, pid: Pid) {
    (f.Root? || f.Child?) && f.pid == pid
  }

  predicate OnStack(stack: seq<Frame>, from: nat, pid: Pid) {
    exists j :: from <= j < |stack| && stack[j].Child? && stack[j].pid == pid
  }

  function WaitDrains(stack: seq<Frame>): nat {
    if stack == [] then 0
    else WaitDrains(stack[..|stack| - 1]) + (if stack[|stack| - 1].WaitDrain? then 1 else 0)
  }

  /** The instance table with one entry per registered child of the stack. */
  function InstancesOf(base: map<Handle, Pid>, stack: seq<Frame>): map<Handle, Pid> {
    if stack == [] then base else
    var rest := InstancesOf(base, stack[..|stack| - 1]);
    match stack[|stack| - 1]
    case Child(pid, Registered(h)) => rest[h := pid]
    case _ => rest
  }

  /** The pid table with one entry per registered child of the stack. */
  function HandlesOf(base: map<Pid, Handle>, stack: seq<Frame>): map<Pid, Handle> {
    if stack == [] then base else
    var rest := HandlesOf(base, stack[..|stack| - 1]);
    match stack[|stack| - 1]
    case Child(pid, Registered(h)) => rest[pid := h]
    case _ => rest
  }

  /** `n | 0` in JavaScript: the 32-bit integer that differs from `n` by a multiple of 2^32. */
  function ToInt32(n: int): (r: int)
    ensures -0x8000_0000 <= r < 0x8000_0000 && (n - r) % 0x1_0000_0000 == 0
  {
    var m := n % 0x1_0000_0000;
    if m < 0x8000_0000 then m else m - 0x1_0000_0000
  }

  /** What `pid` did, in order. */
  function Acts(acts: seq<Entry>, pid: Pid): seq<Act> {
    if acts == [] then [] else
    Acts(acts[..|acts| - 1], pid) + if acts[|acts| - 1].0 == pid then [acts[|acts| - 1].1] else []
  }

  /** The pid a guest asks for that has spawned `mine`. */
  function Resolve(want: Target, mine: seq<Pid>): Pid {
    match want
    case AnyChild => 0
    case NthSpawned(i) => if i < |mine| then mine[i] else 0
    case RawPid(p) => p
  }

  /**
   * The code a guest ends with that has spawned `mine` and goes on with these spawns
   * and waits; None when they are not a run of it.
   */
  function EndOf(g: Guest, acts: seq<Act>, mine: seq<Pid>): Option<int> {
    match g
    case NoEntry => if acts == [] then Some(0) else None
    case Return => if acts == [] then Some(0) else None
    case ProcExit(n) => if acts == [] then Some(ToInt32(n)) else None
    case Trap => if acts == [] then Some(CHILD_TRAP_EXIT) else None
    case Spawn(_, next) =>
      if acts == [] || !acts[0].Forked? then None
      else EndOf(next, acts[1..], if acts[0].child.Some? then mine + [acts[0].child.value] else mine)
    case Wait(want, _, success, failure, error) =>
      if acts == [] || !acts[0].Asked? || acts[0].want != Resolve(want, mine) then None else
      match acts[0].answer
      case Threw => if |acts| == 1 then Some(CHILD_TRAP_EXIT) else None
      case Reaped(_, status) => EndOf(if status == 0 then success else failure, acts[1..], mine)
      case _ => EndOf(error, acts[1..], mine)
  }

  // ---- Invariant ----

  /** A queued spawn is known, has not run, and its process is untouched. */
  ghost predicate Queued(k: Kernel, images: map<Pid, Guest>, ran: seq<Pid>, x: Pending) {
    && x.child in images && images[x.child] == x.image && x.child !in ran
    && x.child in k.procs && k.procs[x.child].exit.None? && k.procs[x.child].children == []
  }

  ghost predicate QueueOk(k: Kernel, images: map<Pid, Guest>, ran: seq<Pid>) {
    Distinct(Pids(k.queue)) && forall i :: 0 <= i < |k.queue| ==> Queued(k, images, ran, k.queue[i])
  }

  /** Every known process ran once or acts in the queue. */
  ghost predicate RanOk(k: Kernel, images: map<Pid, Guest>, ran: seq<Pid>) {
    && Distinct(ran) && images.Keys <= k.procs.Keys
    && forall p :: p in images <==> p in ran || p in Pids(k.queue)
  }

  /** Who ran, and then who acts in the queue, are the spawned processes in the order they were spawned. */
  ghost predicate OrderOk(queue: seq<Pending>, ran: seq<Pid>, spawned: seq<Pid>) {
    ran + Pids(queue) == spawned
  }

  /** The exits are of those that ran and left the stack, and the kernel knows no other exit of theirs. */
  ghost predicate ExitsOk(k: Kernel, images: map<Pid, Guest>, ran: seq<Pid>, exits: seq<(Pid, int)>,
                          stack: seq<Frame>) {
    && Distinct(ExitPids(exits))
    && (forall p :: p in ExitPids(exits) <==> p in ran && !OnStack(stack, 0, p))
    && (forall p :: p in images && p in k.procs && k.procs[p].exit.Some? ==> p in ExitPids(exits))
  }

  ghost predicate CodesOk(k: Kernel, exits: seq<(Pid, int)>) {
    forall i :: 0 <= i < |exits| ==> exits[i].0 in k.procs && k.procs[exits[i].0].exit == Some(exits[i].1)
  }

  /** What an exited process did is a run of its program, and its code the one that run ends with. */
  ghost predicate EndsOk(images: map<Pid, Guest>, ran: seq<Pid>, exits: seq<(Pid, int)>, acts: seq<Entry>) {
    && (forall i :: 0 <= i < |exits| ==>
          exits[i].0 in images && EndOf(images[exits[i].0], Acts(acts, exits[i].0), []) == Some(exits[i].1))
    && (forall p :: p in images && p !in ran ==> Acts(acts, p) == [])
  }

  /** Each answer that reaped a child reaped one that was asked for, and gave its recorded exit. */
  ghost predicate ActsOk(k: Kernel, acts: seq<Entry>) {
    forall i :: 0 <= i < |acts| ==> Truthful(k, acts[i])
  }

  ghost predicate Truthful(k: Kernel, a: Entry) {
    && a.0 in k.procs
    && (a.1.Forked? && a.1.child.Some? ==> a.1.child.value in k.procs)
    && (a.1.Asked? && a.1.answer.Reaped? ==>
          && (a.1.want == 0 || a.1.answer.pid == a.1.want)
          && a.1.answer.pid in k.procs && k.procs[a.1.answer.pid].exit == Some(a.1.answer.status))
  }

  ghost predicate FrameOk(k: Kernel, images: map<Pid, Guest>, ran: seq<Pid>, f: Frame) {
    && (f.Child? ==> f.pid in ran)
    && (f.Root? ==> f.pid in k.procs && f.pid !in images)
  }

  ghost predicate StackOk(k: Kernel, images: map<Pid, Guest>, ran: seq<Pid>, stack: seq<Frame>, depth: nat) {
    && depth == WaitDrains(stack) <= MAX_DRAIN_DEPTH
    && (forall i :: 0 <= i < |stack| ==> FrameOk(k, images, ran, stack[i]))
    && (forall i, j :: 0 <= i < j < |stack| ==> stack[j].WaitDrain? || !IsProc(stack[i], stack[j].pid))
  }

  /** A live child of a process on the stack is queued or runs above its parent. */
  ghost predicate TreeOk(k: Kernel, stack: seq<Frame>) {
    && (forall p, c :: p in k.procs && c in k.procs[p].children ==> c in k.procs)
    && (forall i, c :: 0 <= i < |stack| && LiveChild(k, stack[i], c) ==>
          c in Pids(k.queue) || OnStack(stack, i + 1, c))
  }

  ghost predicate LiveChild(k: Kernel, f: Frame, c: Pid) {
    && (f.Root? || f.Child?)
    && f.pid in k.procs && c in k.procs[f.pid].children
    && c in k.procs && k.procs[c].exit.None?
  }

  /** No registered child of the stack overwrote an entry when it was added. */
  ghost predicate FreshEntries(baseI: map<Handle, Pid>, baseH: map<Pid, Handle>, stack: seq<Frame>) {
    stack == [] ||
    var below := stack[..|stack| - 1];
    && FreshEntries(baseI, baseH, below)
    && match stack[|stack| - 1] {
         case Child(pid, Registered(h)) => h !in InstancesOf(baseI, below) && pid !in HandlesOf(baseH, below)
         case _ => true
       }
  }

  /** The tables are the embedder's entries and one per registered child of the stack. */
  ghost predicate TablesOk(w: World) {
    && w.instances == InstancesOf(w.baseInstances, w.stack)
    && w.handles == HandlesOf(w.baseHandles, w.stack)
    && FreshEntries(w.baseInstances, w.baseHandles, w.stack)
    && forall h :: h in w.instances ==> h < w.nextHandle
  }

  ghost predicate BaseOk(k: Kernel, images: map<Pid, Guest>, baseHandles: map<Pid, Handle>) {
    baseHandles.Keys <= k.procs.Keys && baseHandles.Keys !! images.Keys
  }

  ghost predicate Inv(w: World) {
    && QueueOk(w.k, w.images, w.ran)
    && RanOk(w.k, w.images, w.ran)
    && OrderOk(w.k.queue, w.ran, w.spawned)
    && ExitsOk(w.k, w.images, w.ran, w.exits, w.stack)
    && CodesOk(w.k, w.exits)
    && EndsOk(w.images, w.ran, w.exits, w.acts)
    && ActsOk(w.k, w.acts)
    && StackOk(w.k, w.images, w.ran, w.stack, w.depth)
    && TreeOk(w.k, w.stack)
    && TablesOk(w)
    && BaseOk(w.k, w.images, w.baseHandles)
  }

  // ---- Steps ----

  function Top(w: World): Frame
    requires w.stack != []
  {
    w.stack[|w.stack| - 1]
  }

  function Below(w: World): seq<Frame>
    requires w.stack != []
  {
    w.stack[..|w.stack| - 1]
  }

  /** A running process calls SYS_SPAWN. */
  function StepSpawn(w: World, caller: Pid, image: Guest): (World, Option<Pid>)
    requires caller in w.k.procs
  {
    var (k, pid) := SysSpawn(w.k, caller, image);
    (if pid.Some? then w.(k := k, images := w.images[pid.value := image], spawned := w.spawned + [pid.value])
     else w.(k := k), pid)
  }

  /** The head of the queue is drained. */
  function StepDrain(w: World): World
    requires w.k.queue != []
  {
    var p := w.k.queue[0].child;
    w.(k := w.k.(queue := w.k.queue[1..]), stack := w.stack + [Child(p, Drained)], ran := w.ran + [p])
  }

  /** The drained child gets a handle and its table entries. */
  function StepRegister(w: World): World
    requires w.stack != [] && Top(w).Child? && Top(w).stage.Drained?
  {
    var p := Top(w).pid;
    w.(stack := Below(w) + [Child(p, Registered(w.nextHandle))],
       instances := w.instances[w.nextHandle := p], handles := w.handles[p := w.nextHandle],
       nextHandle := w.nextHandle + 1)
  }

  /** The child's run is over and its table entries go. */
  function StepDeregister(w: World): World
    requires w.stack != [] && Top(w).Child? && Top(w).stage.Registered?
  {
    var p := Top(w).pid;
    w.(stack := Below(w) + [Child(p, Done)],
       instances := w.instances - {Top(w).stage.handle}, handles := w.handles - {p})
  }

  /** The child's exit status reaches the kernel. */
  function StepExit(w: World, code: int): World
    requires w.stack != [] && Top(w).Child?
  {
    var p := Top(w).pid;
    w.(stack := Below(w), k := RecordExit(w.k, p, code).0, exits := w.exits + [(p, code)])
  }

  function StepWait(w: World, caller: Pid, want: Pid): (World, WaitResult)
    requires caller in w.k.procs
  {
    var (k, r) := SysWait(w.k, caller, want);
    (w.(k := k), r)
  }

  /** A spawn or a wait returns to its guest. */
  function StepAct(w: World, pid: Pid, r: Act): World {
    w.(acts := w.acts + [(pid, r)])
  }

  function EnterWait(w: World): World {
    w.(stack := w.stack + [WaitDrain], depth := w.depth + 1)
  }

  function LeaveWait(w: World): World
    requires w.stack != [] && w.depth > 0
  {
    w.(stack := Below(w), depth := w.depth - 1)
  }

  /** Before anything ran. */
  function Fresh(k: Kernel, images: map<Pid, Guest>): World {
    World(k, 0, map[], map[], 1, [], Pids(k.queue), [], [], [], images, map[], map[])
  }

  lemma FreshInv(k: Kernel, images: map<Pid, Guest>)
    requires QueueOk(k, images, []) && RanOk(k, images, []) && TreeOk(k, [])
    requires forall p :: p in images && p in k.procs ==> k.procs[p].exit.None?
    ensures Inv(Fresh(k, images))
  {
    hide QueueOk, RanOk, TreeOk;
    assert [] + Pids(k.queue) == Pids(k.queue);
  }

  // ---- Facts about the stack and the logs ----

  lemma OnStackPush(stack: seq<Frame>, f: Frame, from: nat, p: Pid)
    ensures OnStack(stack + [f], from, p) <==>
            OnStack(stack, from, p) || (from <= |stack| && f.Child? && f.pid == p)
  {
    var s := stack + [f];
    if OnStack(stack, from, p) {
      var i :| from <= i < |stack| && stack[i].Child? && stack[i].pid == p;
      assert s[i] == stack[i];
    }
    if from <= |stack| { assert s[|stack|] == f; }
    if OnStack(s, from, p) {
      var i :| from <= i < |s| && s[i].Child? && s[i].pid == p;
      if i < |stack| { assert s[i] == stack[i]; }
    }
  }

  lemma StackSplit(w: World)
    requires w.stack != []
    ensures w.stack == Below(w) + [Top(w)]
  {
  }

  lemma PidsPush(q: seq<Pending>, x: Pending)
    ensures Pids(q + [x]) == Pids(q) + [x.child]
    ensures forall p :: p in Pids(q + [x]) <==> p in Pids(q) || p == x.child
  {
    assert Pids(q + [x]) == Pids(q) + [x.child];
  }

  lemma PidsHead(q: seq<Pending>)
    requires q != []
    ensures Pids(q) == [q[0].child] + Pids(q[1..])
    ensures forall p :: p in Pids(q) <==> p == q[0].child || p in Pids(q[1..])
  {
    assert Pids(q) == [q[0].child] + Pids(q[1..]);
  }

  lemma ExitPidsPush(e: seq<(Pid, int)>, x: (Pid, int))
    ensures ExitPids(e + [x]) == ExitPids(e) + [x.0]
    ensures forall p :: p in ExitPids(e + [x]) <==> p in ExitPids(e) || p == x.0
  {
    assert ExitPids(e + [x]) == ExitPids(e) + [x.0];
  }

  lemma ActsPush(acts: seq<Entry>, a: Entry, p: Pid)
    ensures Acts(acts + [a], p) == Acts(acts, p) + if a.0 == p then [a.1] else []
  {
    assert (acts + [a])[..|acts|] == acts;
  }

  /** Who is not known has done nothing. */
  lemma {:induction false} NoActs(k: Kernel, acts: seq<Entry>, p: Pid)
    requires ActsOk(k, acts) && p !in k.procs
    ensures Acts(acts, p) == []
  {
    if acts == [] {
    } else {
      assert Truthful(k, acts[|acts| - 1]);
      NoActs(k, acts[..|acts| - 1], p);
    }
  }

  // ---- Replacing the top of the stack, pushing and popping ----

  /** Changes of the top that leave its pid where it is. */
  lemma SwapExits(k: Kernel, images: map<Pid, Guest>, ran: seq<Pid>, exits: seq<(Pid, int)>, s: seq<Frame>,
                  f: Frame, g: Frame)
    requires ExitsOk(k, images, ran, exits, s + [f]) && f.Child? && g.Child? && f.pid == g.pid
    ensures ExitsOk(k, images, ran, exits, s + [g])
  {
    hide OnStack;
    forall p ensures OnStack(s + [f], 0, p) <==> OnStack(s + [g], 0, p) {
      OnStackPush(s, f, 0, p);
      OnStackPush(s, g, 0, p);
    }
  }

  /** Frames that are no child do not count. */
  lemma PlainExits(k: Kernel, images: map<Pid, Guest>, ran: seq<Pid>, exits: seq<(Pid, int)>, s: seq<Frame>, f: Frame)
    requires !f.Child?
    ensures ExitsOk(k, images, ran, exits, s) <==> ExitsOk(k, images, ran, exits, s + [f])
  {
    hide OnStack;
    forall p ensures OnStack(s, 0, p) <==> OnStack(s + [f], 0, p) { OnStackPush(s, f, 0, p); }
  }

  lemma StackPush(k: Kernel, images: map<Pid, Guest>, ran: seq<Pid>, s: seq<Frame>, depth: nat, f: Frame)
    requires StackOk(k, images, ran, s, depth) && FrameOk(k, images, ran, f)
    requires f.WaitDrain? || forall i :: 0 <= i < |s| ==> !IsProc(s[i], f.pid)
    requires f.WaitDrain? ==> depth < MAX_DRAIN_DEPTH
    ensures StackOk(k, images, ran, s + [f], if f.WaitDrain? then depth + 1 else depth)
  {
    hide FrameOk;
    assert (s + [f])[..|s|] == s;
  }

  lemma StackPop(k: Kernel, images: map<Pid, Guest>, ran: seq<Pid>, s: seq<Frame>, depth: nat, f: Frame)
    requires StackOk(k, images, ran, s + [f], depth)
    ensures FrameOk(k, images, ran, f) && (f.WaitDrain? ==> depth > 0)
    ensures StackOk(k, images, ran, s, if f.WaitDrain? then depth - 1 else depth)
    ensures f.WaitDrain? || forall i :: 0 <= i < |s| ==> !IsProc(s[i], f.pid)
  {
    hide FrameOk;
    var t := s + [f];
    assert t[..|s|] == s && t[|s|] == f;
    forall i | 0 <= i < |s| ensures FrameOk(k, images, ran, s[i]) { assert s[i] == t[i]; }
    forall i, j | 0 <= i < j < |s| ensures s[j].WaitDrain? || !IsProc(s[i], s[j].pid) {
      assert s[i] == t[i] && s[j] == t[j];
    }
    forall i | 0 <= i < |s| ensures f.WaitDrain? || !IsProc(s[i], f.pid) { assert s[i] == t[i]; }
  }

  /** A frame whose process has no live child may be pushed. */
  lemma TreePush(k: Kernel, s: seq<Frame>, f: Frame)
    requires TreeOk(k, s) && forall c :: LiveChild(k, f, c) ==> c in Pids(k.queue)
    ensures TreeOk(k, s + [f])
  {
    hide LiveChild;
    var t := s + [f];
    forall i, c | 0 <= i < |t| && LiveChild(k, t[i], c) ensures c in Pids(k.queue) || OnStack(t, i + 1, c) {
      if i < |s| {
        assert t[i] == s[i];
        OnStackPush(s, f, i + 1, c);
      }
    }
  }

  lemma TreeTop(k: Kernel, s: seq<Frame>, f: Frame, c: Pid)
    requires TreeOk(k, s + [f]) && LiveChild(k, f, c)
    ensures c in Pids(k.queue)
  {
    hide LiveChild;
    var t := s + [f];
    assert t[|s|] == f && !OnStack(t, |t|, c);
  }

  /** The top may go when its own process does not live. */
  lemma TreePop(k: Kernel, s: seq<Frame>, f: Frame)
    requires TreeOk(k, s + [f]) && (f.Child? && f.pid in k.procs ==> k.procs[f.pid].exit.Some?)
    ensures TreeOk(k, s)
  {
    var t := s + [f];
    forall i, c | 0 <= i < |s| && LiveChild(k, s[i], c) ensures c in Pids(k.queue) || OnStack(s, i + 1, c) {
      assert t[i] == s[i];
      hide OnStack;
      OnStackPush(s, f, i + 1, c);
    }
  }

  lemma TreeSwap(k: Kernel, s: seq<Frame>, f: Frame, g: Frame)
    requires TreeOk(k, s + [f]) && f.Child? && g.Child? && f.pid == g.pid
    ensures TreeOk(k, s + [g])
  {
    var t, u := s + [f], s + [g];
    forall i, c | 0 <= i < |u| && LiveChild(k, u[i], c) ensures c in Pids(k.queue) || OnStack(u, i + 1, c) {
      assert LiveChild(k, t[i], c);
      hide OnStack, LiveChild;
      OnStackPush(s, f, i + 1, c);
      OnStackPush(s, g, i + 1, c);
    }
  }

  lemma HandlesKeys(base: map<Pid, Handle>, stack: seq<Frame>, p: Pid)
    ensures p in HandlesOf(base, stack) ==> p in base || OnStack(stack, 0, p)
  {
    if stack == [] {
    } else {
      var below, top := stack[..|stack| - 1], stack[|stack| - 1];
      HandlesKeys(base, below, p);
      assert stack == below + [top];
      hide OnStack;
      OnStackPush(below, top, 0, p);
    }
  }

  /** A frame without table entries changes no table. */
  lemma TablesPlain(w: World, v: World, s: seq<Frame>, f: Frame)
    requires TablesOk(w) && !(f.Child? && f.stage.Registered?)
    requires (w.stack == s && v.stack == s + [f]) || (w.stack == s + [f] && v.stack == s)
    requires v.instances == w.instances && v.handles == w.handles && v.nextHandle == w.nextHandle
    requires v.baseInstances == w.baseInstances && v.baseHandles == w.baseHandles
    ensures TablesOk(v)
  {
    assert (s + [f])[..|s|] == s;
  }

  // ---- A running process spawns ----

  /** What SYS_SPAWN changes. */
  ghost predicate Spawned(k: Kernel, k': Kernel, caller: Pid, pid: Pid, image: Guest) {
    && pid !in k.procs && k'.queue == k.queue + [Pending(pid, image)]
    && k'.procs.Keys == k.procs.Keys + {pid} && k'.procs[pid] == Process(caller, [], None)
    && (forall p :: p in k.procs ==> k'.procs[p].exit == k.procs[p].exit)
    && (forall p :: p in k.procs ==>
          k'.procs[p].children == k.procs[p].children + if p == caller then [pid] else [])
  }

  lemma SpawnFacts(k: Kernel, caller: Pid, image: Guest)
    requires caller in k.procs
    ensures var (k', pid) := SysSpawn(k, caller, image);
            if pid.None? then k' == k else Spawned(k, k', caller, pid.value, image)
  {
  }

  lemma SpawnQueue(k: Kernel, k': Kernel, images: map<Pid, Guest>, ran: seq<Pid>, caller: Pid, pid: Pid, image: Guest)
    requires QueueOk(k, images, ran) && RanOk(k, images, ran) && Spawned(k, k', caller, pid, image)
    requires caller in k.procs && caller !in Pids(k.queue)
    ensures QueueOk(k', images[pid := image], ran)
  {
    PidsPush(k.queue, Pending(pid, image));
    forall i | 0 <= i < |k'.queue| ensures Queued(k', images[pid := image], ran, k'.queue[i]) {
      if i < |k.queue| {
        assert Queued(k, images, ran, k.queue[i]);
        assert Pids(k.queue)[i] == k.queue[i].child;
      }
    }
    hide Queued;
    DistinctSnoc(Pids(k.queue), pid);
  }

  lemma SpawnRan(k: Kernel, k': Kernel, images: map<Pid, Guest>, ran: seq<Pid>, caller: Pid, pid: Pid, image: Guest)
    requires RanOk(k, images, ran) && Spawned(k, k', caller, pid, image)
    ensures RanOk(k', images[pid := image], ran)
  {
    PidsPush(k.queue, Pending(pid, image));
  }

  lemma SpawnOrder(k: Kernel, k': Kernel, ran: seq<Pid>, spawned: seq<Pid>, caller: Pid, pid: Pid, image: Guest)
    requires OrderOk(k.queue, ran, spawned) && Spawned(k, k', caller, pid, image)
    ensures OrderOk(k'.queue, ran, spawned + [pid])
  {
    PidsPush(k.queue, Pending(pid, image));
    assert ran + (Pids(k.queue) + [pid]) == ran + Pids(k.queue) + [pid];
  }

  lemma SpawnLogs(w: World, k': Kernel, caller: Pid, pid: Pid, image: Guest)
    requires Inv(w) && Spawned(w.k, k', caller, pid, image)
    ensures ExitsOk(k', w.images[pid := image], w.ran, w.exits, w.stack) && CodesOk(k', w.exits)
    ensures EndsOk(w.images[pid := image], w.ran, w.exits, w.acts) && ActsOk(k', w.acts)
  {
    hide QueueOk, RanOk, OrderOk, StackOk, TreeOk, TablesOk, BaseOk, OnStack, EndOf;
    NoActs(w.k, w.acts, pid);
    forall i | 0 <= i < |w.acts| ensures Truthful(k', w.acts[i]) { assert Truthful(w.k, w.acts[i]); }
  }

  lemma SpawnStack(w: World, k': Kernel, caller: Pid, pid: Pid, image: Guest)
    requires StackOk(w.k, w.images, w.ran, w.stack, w.depth) && Spawned(w.k, k', caller, pid, image)
    requires BaseOk(w.k, w.images, w.baseHandles)
    ensures StackOk(k', w.images[pid := image], w.ran, w.stack, w.depth)
    ensures BaseOk(k', w.images[pid := image], w.baseHandles)
  {
    forall i | 0 <= i < |w.stack| ensures FrameOk(k', w.images[pid := image], w.ran, w.stack[i]) {
      assert FrameOk(w.k, w.images, w.ran, w.stack[i]);
    }
  }

  lemma SpawnTree(k: Kernel, k': Kernel, stack: seq<Frame>, caller: Pid, pid: Pid, image: Guest)
    requires TreeOk(k, stack) && Spawned(k, k', caller, pid, image)
    ensures TreeOk(k', stack)
  {
    PidsPush(k.queue, Pending(pid, image));
    forall i, c | 0 <= i < |stack| &&
        LiveChild(k', stack[i], c) ensures c in Pids(k'.queue) || OnStack(stack, i + 1, c) {
      if c != pid { assert LiveChild(k, stack[i], c); }
    }
  }

  /** A process on the stack is not in the queue. */
  lemma TopNotQueued(w: World, pid: Pid)
    requires Inv(w) && w.stack != [] && IsProc(Top(w), pid)
    ensures pid !in Pids(w.k.queue)
  {
    hide OrderOk, ExitsOk, CodesOk, EndsOk, ActsOk, TreeOk, TablesOk, BaseOk;
    assert FrameOk(w.k, w.images, w.ran, w.stack[|w.stack| - 1]);
    forall i | 0 <= i < |w.k.queue|
        ensures Pids(w.k.queue)[i] != pid { assert Queued(w.k, w.images, w.ran, w.k.queue[i]); }
  }

  lemma StepSpawnKeepsInv(w: World, caller: Pid, image: Guest)
    requires Inv(w) && w.stack != [] && caller in w.k.procs && IsProc(Top(w), caller)
    ensures Inv(StepSpawn(w, caller, image).0)
  {
    hide QueueOk, RanOk, OrderOk, ExitsOk, CodesOk, EndsOk, ActsOk, StackOk, TreeOk, TablesOk, BaseOk, Spawned,
      SysSpawn;
    var (k', pid) := SysSpawn(w.k, caller, image);
    SpawnFacts(w.k, caller, image);
    TopNotQueued(w, caller);
    if pid.Some? {
      SpawnQueue(w.k, k', w.images, w.ran, caller, pid.value, image);
      SpawnRan(w.k, k', w.images, w.ran, caller, pid.value, image);
      SpawnOrder(w.k, k', w.ran, w.spawned, caller, pid.value, image);
      SpawnLogs(w, k', caller, pid.value, image);
      SpawnStack(w, k', caller, pid.value, image);
      SpawnTree(w.k, k', w.stack, caller, pid.value, image);
      TablesSame(w, StepSpawn(w, caller, image).0);
    }
  }

  /** The tables do not depend on the kernel, the logs or the depth. */
  lemma TablesSame(w: World, v: World)
    requires TablesOk(w) && v.stack == w.stack && v.instances == w.instances && v.handles == w.handles
    requires v.nextHandle == w.nextHandle && v.baseInstances == w.baseInstances && v.baseHandles == w.baseHandles
    ensures TablesOk(v)
  {
  }

  // ---- The head of the queue is drained ----

  lemma DrainQueue(k: Kernel, images: map<Pid, Guest>, ran: seq<Pid>)
    requires QueueOk(k, images, ran) && k.queue != []
    ensures QueueOk(k.(queue := k.queue[1..]), images, ran + [k.queue[0].child])
  {
    var k', c := k.(queue := k.queue[1..]), k.queue[0].child;
    PidsHead(k.queue);
    forall i | 0 <= i < |k'.queue| ensures Queued(k', images, ran + [c], k'.queue[i]) {
      assert Queued(k, images, ran, k.queue[i + 1]);
      assert Pids(k.queue)[0] != Pids(k.queue)[i + 1];
    }
    hide Queued;
    assert Pids(k'.queue) == Pids(k.queue)[1..];
  }

  lemma DrainRan(k: Kernel, images: map<Pid, Guest>, ran: seq<Pid>)
    requires QueueOk(k, images, ran) && RanOk(k, images, ran) && k.queue != []
    ensures RanOk(k.(queue := k.queue[1..]), images, ran + [k.queue[0].child])
  {
    var c := k.queue[0].child;
    PidsHead(k.queue);
    assert Queued(k, images, ran, k.queue[0]);
    DistinctSnoc(ran, c);
    assert forall p :: p in ran + [c] <==> p in ran || p == c;
  }

  lemma DrainOrder(queue: seq<Pending>, ran: seq<Pid>, spawned: seq<Pid>)
    requires OrderOk(queue, ran, spawned) && queue != []
    ensures OrderOk(queue[1..], ran + [queue[0].child], spawned)
  {
    PidsHead(queue);
    var rest := Pids(queue[1..]);
    assert ran + [queue[0].child] + rest == ran + ([queue[0].child] + rest);
  }

  lemma DrainExits(k: Kernel, images: map<Pid, Guest>, ran: seq<Pid>, exits: seq<(Pid, int)>, s: seq<Frame>, c: Pid,
                   k': Kernel)
    requires ExitsOk(k, images, ran, exits, s) && c !in ran && k'.procs == k.procs
    ensures ExitsOk(k', images, ran + [c], exits, s + [Child(c, Drained)])
  {
    hide OnStack;
    forall p ensures p in ExitPids(exits) <==> p in ran + [c] && !OnStack(s + [Child(c, Drained)], 0, p) {
      OnStackPush(s, Child(c, Drained), 0, p);
      assert p in ran + [c] <==> p in ran || p == c;
    }
  }

  lemma DrainEnds(images: map<Pid, Guest>, ran: seq<Pid>, exits: seq<(Pid, int)>, acts: seq<Entry>, c: Pid)
    requires EndsOk(images, ran, exits, acts)
    ensures EndsOk(images, ran + [c], exits, acts)
  {
    hide EndOf, Acts;
  }

  /** More may have run. */
  lemma StackRan(k: Kernel, images: map<Pid, Guest>, ran: seq<Pid>, s: seq<Frame>, depth: nat, c: Pid, k': Kernel)
    requires StackOk(k, images, ran, s, depth) && k'.procs == k.procs
    ensures StackOk(k', images, ran + [c], s, depth)
  {
    forall i | 0 <= i < |s| ensures FrameOk(k', images, ran + [c], s[i]) { assert FrameOk(k, images, ran, s[i]); }
  }

  lemma NewOnStack(k: Kernel, images: map<Pid, Guest>, ran: seq<Pid>, s: seq<Frame>, depth: nat, c: Pid)
    requires StackOk(k, images, ran, s, depth) && c in images && c !in ran
    ensures forall i :: 0 <= i < |s| ==> !IsProc(s[i], c)
  {
    forall i | 0 <= i < |s| ensures !IsProc(s[i], c) { assert FrameOk(k, images, ran, s[i]); }
  }

  lemma DrainTree(k: Kernel, s: seq<Frame>)
    requires TreeOk(k, s) && k.queue != [] && k.queue[0].child in k.procs && k.procs[k.queue[0].child].children == []
    ensures TreeOk(k.(queue := k.queue[1..]), s + [Child(k.queue[0].child, Drained)])
  {
    var k', c := k.(queue := k.queue[1..]), k.queue[0].child;
    var f := Child(c, Drained);
    PidsHead(k.queue);
    forall i, d | 0 <= i < |s + [f]| &&
        LiveChild(k', (s + [f])[i], d) ensures d in Pids(k'.queue) || OnStack(s + [f], i + 1, d) {
      if i < |s| {
        assert LiveChild(k, s[i], d);
        hide OnStack, LiveChild;
        OnStackPush(s, f, i + 1, d);
      }
    }
  }

  lemma StepDrainKeepsInv(w: World)
    requires Inv(w) && w.k.queue != []
    ensures Inv(StepDrain(w))
    ensures Acts(w.acts, w.k.queue[0].child) == []
  {
    var v, c := StepDrain(w), w.k.queue[0].child;
    HeadQueued(w);
    hide QueueOk, RanOk, OrderOk, ExitsOk, CodesOk, EndsOk, ActsOk, StackOk, TreeOk, TablesOk, BaseOk, Queued,
      FrameOk, Acts;
    DrainQueue(w.k, w.images, w.ran);
    DrainRan(w.k, w.images, w.ran);
    DrainOrder(w.k.queue, w.ran, w.spawned);
    DrainExits(w.k, w.images, w.ran, w.exits, w.stack, c, v.k);
    DrainEnds(w.images, w.ran, w.exits, w.acts, c);
    NewOnStack(w.k, w.images, w.ran, w.stack, w.depth, c);
    StackRan(w.k, w.images, w.ran, w.stack, w.depth, c, v.k);
    ChildFrame(v.k, w.images, v.ran, c);
    StackPush(v.k, w.images, v.ran, w.stack, w.depth, Child(c, Drained));
    DrainTree(w.k, w.stack);
    TablesPlain(w, v, w.stack, Child(c, Drained));
    SameProcs(w, v);
  }

  lemma ChildFrame(k: Kernel, images: map<Pid, Guest>, ran: seq<Pid>, c: Pid)
    requires c in ran
    ensures FrameOk(k, images, ran, Child(c, Drained))
  {
  }

  lemma HeadQueued(w: World)
    requires Inv(w) && w.k.queue != []
    ensures var c := w.k.queue[0].child;
            && c in w.images && w.images[c] == w.k.queue[0].image && c !in w.ran && Acts(w.acts, c) == []
            && c in w.k.procs && w.k.procs[c].children == []
  {
    hide RanOk, OrderOk, ExitsOk, CodesOk, ActsOk, StackOk, TreeOk, TablesOk, BaseOk, EndOf, Acts;
    assert Queued(w.k, w.images, w.ran, w.k.queue[0]);
  }

  /** What depends on the process table alone. */
  lemma SameProcs(w: World, v: World)
    requires v.k.procs == w.k.procs
    ensures CodesOk(w.k, w.exits) ==> CodesOk(v.k, w.exits)
    ensures ActsOk(w.k, w.acts) ==> ActsOk(v.k, w.acts)
    ensures BaseOk(w.k, w.images, w.baseHandles) ==> BaseOk(v.k, w.images, w.baseHandles)
  {
    if ActsOk(w.k, w.acts) {
      forall i | 0 <= i < |w.acts| ensures Truthful(v.k, w.acts[i]) { assert Truthful(w.k, w.acts[i]); }
    }
  }

  // ---- The drained child is registered, runs, and is deregistered ----

  lemma SwapStack(k: Kernel, images: map<Pid, Guest>, ran: seq<Pid>, s: seq<Frame>, depth: nat, f: Frame, g: Frame)
    requires StackOk(k, images, ran, s + [f], depth) && f.Child? && g.Child? && f.pid == g.pid
    ensures StackOk(k, images, ran, s + [g], depth)
  {
    hide StackOk;
    StackPop(k, images, ran, s, depth, f);
    StackPush(k, images, ran, s, depth, g);
  }

  lemma FreshHandle(w: World, p: Pid)
    requires Inv(w) && w.stack != [] && Top(w) == Child(p, Drained)
    ensures p !in HandlesOf(w.baseHandles, Below(w)) && w.nextHandle !in w.instances
  {
    hide OrderOk, QueueOk, ExitsOk, CodesOk, EndsOk, ActsOk, TreeOk;
    StackSplit(w);
    assert FrameOk(w.k, w.images, w.ran, Top(w));
    assert p in w.images;
    StackPop(w.k, w.images, w.ran, Below(w), w.depth, Top(w));
    HandlesKeys(w.baseHandles, Below(w), p);
  }

  lemma RegisterTables(w: World)
    requires TablesOk(w) && w.stack != [] && Top(w).Child? && Top(w).stage.Drained?
    requires Top(w).pid !in HandlesOf(w.baseHandles, Below(w)) && w.nextHandle !in w.instances
    ensures TablesOk(StepRegister(w))
  {
    var v := StepRegister(w);
    assert v.stack[..|v.stack| - 1] == Below(w);
  }

  lemma StepRegisterKeepsInv(w: World)
    requires Inv(w) && w.stack != [] && Top(w).Child? && Top(w).stage.Drained?
    ensures Inv(StepRegister(w))
  {
    hide QueueOk, RanOk, OrderOk, ExitsOk, CodesOk, EndsOk, ActsOk, StackOk, TreeOk, TablesOk, BaseOk;
    var s, f, g := Below(w), Top(w), Child(Top(w).pid, Registered(w.nextHandle));
    StackSplit(w);
    FreshHandle(w, f.pid);
    RegisterTables(w);
    SwapExits(w.k, w.images, w.ran, w.exits, s, f, g);
    SwapStack(w.k, w.images, w.ran, s, w.depth, f, g);
    TreeSwap(w.k, s, f, g);
  }

  lemma DeregisterTables(w: World)
    requires TablesOk(w) && w.stack != [] && Top(w).Child? && Top(w).stage.Registered?
    ensures TablesOk(StepDeregister(w))
  {
    var v := StepDeregister(w);
    assert v.stack[..|v.stack| - 1] == Below(w);
  }

  lemma StepDeregisterKeepsInv(w: World)
    requires Inv(w) && w.stack != [] && Top(w).Child? && Top(w).stage.Registered?
    ensures Inv(StepDeregister(w))
  {
    hide QueueOk, RanOk, OrderOk, ExitsOk, CodesOk, EndsOk, ActsOk, StackOk, TreeOk, TablesOk, BaseOk;
    var s, f, g := Below(w), Top(w), Child(Top(w).pid, Done);
    StackSplit(w);
    DeregisterTables(w);
    SwapExits(w.k, w.images, w.ran, w.exits, s, f, g);
    SwapStack(w.k, w.images, w.ran, s, w.depth, f, g);
    TreeSwap(w.k, s, f, g);
  }

  // ---- The exit status of the deregistered child is recorded ----

  /** What recording an exit changes. */
  ghost predicate Recorded(k: Kernel, k': Kernel, p: Pid, code: int) {
    && p in k.procs && k'.queue == k.queue && k'.procs == k.procs[p := k.procs[p].(exit := Some(code))]
  }

  lemma ExitFacts(w: World, code: int)
    requires Inv(w) && w.stack != [] && Top(w).Child?
    ensures var p := Top(w).pid;
            && p in w.ran && p in w.images && p !in Pids(w.k.queue) && p !in ExitPids(w.exits) && p in w.k.procs
            && w.k.procs[p].exit.None? && Recorded(w.k, RecordExit(w.k, p, code).0, p, code)
            && RecordExit(w.k, p, code).1
  {
    hide OrderOk, QueueOk, CodesOk, EndsOk, ActsOk, TreeOk, TablesOk, BaseOk;
    TopNotQueued(w, Top(w).pid);
    assert FrameOk(w.k, w.images, w.ran, w.stack[|w.stack| - 1]);
    assert OnStack(w.stack, 0, Top(w).pid);
  }

  lemma ExitQueue(k: Kernel, k': Kernel, images: map<Pid, Guest>, ran: seq<Pid>, p: Pid, code: int)
    requires QueueOk(k, images, ran) && RanOk(k, images, ran) && Recorded(k, k', p, code) && p !in Pids(k.queue)
    ensures QueueOk(k', images, ran) && RanOk(k', images, ran)
  {
    forall i | 0 <= i < |k.queue| ensures Queued(k', images, ran, k.queue[i]) {
      assert Queued(k, images, ran, k.queue[i]);
      assert Pids(k.queue)[i] == k.queue[i].child;
    }
  }

  lemma ExitExits(k: Kernel, k': Kernel, images: map<Pid, Guest>, ran: seq<Pid>, exits: seq<(Pid, int)>,
                  s: seq<Frame>, f: Frame, code: int)
    requires ExitsOk(k, images, ran, exits, s + [f]) && f.Child? && f.pid in ran && f.pid !in ExitPids(exits)
    requires forall i :: 0 <= i < |s| ==> !IsProc(s[i], f.pid)
    requires Recorded(k, k', f.pid, code)
    ensures ExitsOk(k', images, ran, exits + [(f.pid, code)], s)
  {
    ExitPidsPush(exits, (f.pid, code));
    assert !OnStack(s, 0, f.pid);
    hide OnStack, IsProc;
    forall p ensures OnStack(s + [f], 0, p) <==> OnStack(s, 0, p) || p == f.pid { OnStackPush(s, f, 0, p); }
    DistinctSnoc(ExitPids(exits), f.pid);
  }

  lemma ExitCodes(k: Kernel, k': Kernel, exits: seq<(Pid, int)>, acts: seq<Entry>, p: Pid, code: int)
    requires CodesOk(k, exits) && ActsOk(k, acts) && Recorded(k, k', p, code)
    requires p !in ExitPids(exits) && k.procs[p].exit.None?
    ensures CodesOk(k', exits + [(p, code)]) && ActsOk(k', acts)
  {
    forall i | 0 <= i < |exits| ensures exits[i].0 != p { assert ExitPids(exits)[i] == exits[i].0; }
    forall i | 0 <= i < |acts| ensures Truthful(k', acts[i]) { assert Truthful(k, acts[i]); }
  }

  lemma ExitEnds(images: map<Pid, Guest>, ran: seq<Pid>, exits: seq<(Pid, int)>, acts: seq<Entry>, p: Pid,
                 code: int)
    requires EndsOk(images, ran, exits, acts) && p in images && EndOf(images[p], Acts(acts, p), []) == Some(code)
    ensures EndsOk(images, ran, exits + [(p, code)], acts)
  {
    hide EndOf, Acts;
  }

  lemma ExitTree(k: Kernel, k': Kernel, stack: seq<Frame>, p: Pid, code: int)
    requires TreeOk(k, stack) && Recorded(k, k', p, code)
    ensures TreeOk(k', stack)
  {
    forall i, c | 0 <= i < |stack| &&
        LiveChild(k', stack[i], c) ensures c in Pids(k'.queue) || OnStack(stack, i + 1, c) {
      assert LiveChild(k, stack[i], c);
    }
  }

  lemma ExitStack(k: Kernel, k': Kernel, images: map<Pid, Guest>, ran: seq<Pid>, s: seq<Frame>, depth: nat, p: Pid,
                  code: int)
    requires StackOk(k, images, ran, s, depth) && Recorded(k, k', p, code)
    ensures StackOk(k', images, ran, s, depth)
  {
    forall i | 0 <= i < |s| ensures FrameOk(k', images, ran, s[i]) { assert FrameOk(k, images, ran, s[i]); }
  }

  lemma ExitBase(k: Kernel, k': Kernel, images: map<Pid, Guest>, baseHandles: map<Pid, Handle>, p: Pid, code: int)
    requires BaseOk(k, images, baseHandles) && Recorded(k, k', p, code)
    ensures BaseOk(k', images, baseHandles) && p in k'.procs && k'.procs[p].exit.Some?
  {
  }

  lemma StepExitKeepsInv(w: World, code: int)
    requires Inv(w) && w.stack != [] && Top(w).Child? && Top(w).stage.Done?
    requires Top(w).pid in w.images && EndOf(w.images[Top(w).pid], Acts(w.acts, Top(w).pid), []) == Some(code)
    ensures Inv(StepExit(w, code))
  {
    hide QueueOk, RanOk, OrderOk, ExitsOk, CodesOk, EndsOk, ActsOk, StackOk, TreeOk, TablesOk, BaseOk, Recorded,
      RecordExit, EndOf, Acts, FrameOk;
    var s, f, p, k' := Below(w), Top(w), Top(w).pid, RecordExit(w.k, Top(w).pid, code).0;
    StackSplit(w);
    ExitFacts(w, code);
    StackPop(w.k, w.images, w.ran, s, w.depth, f);
    ExitQueue(w.k, k', w.images, w.ran, p, code);
    ExitExits(w.k, k', w.images, w.ran, w.exits, s, f, code);
    ExitCodes(w.k, k', w.exits, w.acts, p, code);
    ExitEnds(w.images, w.ran, w.exits, w.acts, p, code);
    ExitTree(w.k, k', w.stack, p, code);
    ExitBase(w.k, k', w.images, w.baseHandles, p, code);
    TreePop(k', s, f);
    ExitStack(w.k, k', w.images, w.ran, s, w.depth, p, code);
    TablesPlain(w, StepExit(w, code), s, f);
    ExitKeepsQueue(w.k, k', p, code);
  }

  lemma ExitKeepsQueue(k: Kernel, k': Kernel, p: Pid, code: int)
    requires Recorded(k, k', p, code)
    ensures k'.queue == k.queue
  {
  }

  // ---- host_wait enters and leaves a drain, reaps, and answers ----

  lemma EnterWaitKeepsInv(w: World)
    requires Inv(w) && w.depth < MAX_DRAIN_DEPTH
    ensures Inv(EnterWait(w))
  {
    hide QueueOk, RanOk, OrderOk, ExitsOk, CodesOk, EndsOk, ActsOk, StackOk, TreeOk, TablesOk, BaseOk;
    PlainExits(w.k, w.images, w.ran, w.exits, w.stack, WaitDrain);
    StackPush(w.k, w.images, w.ran, w.stack, w.depth, WaitDrain);
    TreePush(w.k, w.stack, WaitDrain);
    TablesPlain(w, EnterWait(w), w.stack, WaitDrain);
  }

  lemma LeaveWaitKeepsInv(w: World)
    requires Inv(w) && w.stack != [] && Top(w).WaitDrain?
    ensures w.depth > 0 && Inv(LeaveWait(w))
  {
    hide QueueOk, RanOk, OrderOk, ExitsOk, CodesOk, EndsOk, ActsOk, StackOk, TreeOk, TablesOk, BaseOk;
    StackSplit(w);
    StackPop(w.k, w.images, w.ran, Below(w), w.depth, WaitDrain);
    PlainExits(w.k, w.images, w.ran, w.exits, Below(w), WaitDrain);
    TreePop(w.k, Below(w), WaitDrain);
    TablesPlain(w, LeaveWait(w), Below(w), WaitDrain);
  }

  /** What SYS_WAIT changes: at most the caller's list of children, by taking one off. */
  ghost predicate Reaping(k: Kernel, k': Kernel, caller: Pid) {
    && caller in k.procs && k'.queue == k.queue && k'.procs.Keys == k.procs.Keys
    && (forall p :: p in k.procs ==> k'.procs[p].exit == k.procs[p].exit)
    && (forall p :: p in k.procs && p != caller ==> k'.procs[p] == k.procs[p])
    && (forall c :: c in k'.procs[caller].children ==> c in k.procs[caller].children)
  }

  lemma WaitFacts(k: Kernel, caller: Pid, want: Pid)
    requires caller in k.procs
    ensures var (k', r) := SysWait(k, caller, want);
            && Reaping(k, k', caller)
            && !r.Deadlock? && !r.Threw? && (r.NoChild? <==> Candidates(k, caller, want) == [])
            && (!r.Reaped? ==> k' == k)
            && (r.Reaped? ==>
                  && r.pid in Candidates(k, caller, want) && r.pid in k.procs[caller].children
                  && r.pid !in k'.procs[caller].children
                  && r.pid in k'.procs && k'.procs[r.pid].exit == Some(r.status))
  {
  }

  lemma ReapQueue(k: Kernel, k': Kernel, images: map<Pid, Guest>, ran: seq<Pid>, caller: Pid)
    requires QueueOk(k, images, ran) && RanOk(k, images, ran) && Reaping(k, k', caller) && caller !in Pids(k.queue)
    ensures QueueOk(k', images, ran) && RanOk(k', images, ran) && k'.queue == k.queue
  {
    forall i | 0 <= i < |k.queue| ensures Queued(k', images, ran, k.queue[i]) {
      assert Queued(k, images, ran, k.queue[i]);
      assert Pids(k.queue)[i] == k.queue[i].child;
    }
  }

  lemma ReapLogs(w: World, k': Kernel, caller: Pid)
    requires Inv(w) && Reaping(w.k, k', caller)
    ensures ExitsOk(k', w.images, w.ran, w.exits, w.stack) && CodesOk(k', w.exits) && ActsOk(k', w.acts)
    ensures BaseOk(k', w.images, w.baseHandles)
  {
    hide QueueOk, RanOk, OrderOk, EndsOk, StackOk, TreeOk, TablesOk, OnStack;
    forall i | 0 <= i < |w.acts| ensures Truthful(k', w.acts[i]) { assert Truthful(w.k, w.acts[i]); }
  }

  lemma ReapStack(k: Kernel, k': Kernel, images: map<Pid, Guest>, ran: seq<Pid>, s: seq<Frame>, depth: nat, caller: Pid)
    requires StackOk(k, images, ran, s, depth) && TreeOk(k, s) && Reaping(k, k', caller)
    ensures StackOk(k', images, ran, s, depth) && TreeOk(k', s)
  {
    forall i | 0 <= i < |s| ensures FrameOk(k', images, ran, s[i]) { assert FrameOk(k, images, ran, s[i]); }
    forall i, c | 0 <= i < |s| && LiveChild(k', s[i], c) ensures c in Pids(k'.queue) || OnStack(s, i + 1, c) {
      assert LiveChild(k, s[i], c);
    }
  }

  lemma StepWaitKeepsInv(w: World, caller: Pid, want: Pid)
    requires Inv(w) && w.stack != [] && caller in w.k.procs && IsProc(Top(w), caller)
    ensures Inv(StepWait(w, caller, want).0)
  {
    hide QueueOk, RanOk, OrderOk, ExitsOk, CodesOk, EndsOk, ActsOk, StackOk, TreeOk, TablesOk, BaseOk, SysWait,
      Reaping, Candidates;
    WaitFacts(w.k, caller, want);
    var k' := SysWait(w.k, caller, want).0;
    TopNotQueued(w, caller);
    ReapQueue(w.k, k', w.images, w.ran, caller);
    ReapLogs(w, k', caller);
    ReapStack(w.k, k', w.images, w.ran, w.stack, w.depth, caller);
    TablesSame(w, w.(k := k'));
  }

  /** A process on the stack has no exit yet, so what it does touches no finished run. */
  lemma StepActKeepsInv(w: World, pid: Pid, r: Act)
    requires Inv(w) && w.stack != [] && pid in w.k.procs && IsProc(Top(w), pid) && Truthful(w.k, (pid, r))
    ensures Inv(StepAct(w, pid, r))
  {
    hide QueueOk, RanOk, OrderOk, ExitsOk, CodesOk, ActsOk, StackOk, TreeOk, TablesOk, BaseOk, EndOf, Acts,
      Truthful;
    var acts' := w.acts + [(pid, r)];
    RunningHasNotExited(w, pid);
    forall p ensures p != pid ==> Acts(acts', p) == Acts(w.acts, p) {
      ActsPush(w.acts, (pid, r), p);
      if p != pid { assert Acts(w.acts, p) + [] == Acts(w.acts, p); }
    }
    forall i | 0 <= i < |w.exits| ensures w.exits[i].0 != pid { assert ExitPids(w.exits)[i] == w.exits[i].0; }
    ActsAppend(w.k, w.acts, (pid, r));
    TablesSame(w, StepAct(w, pid, r));
  }

  lemma ActsAppend(k: Kernel, acts: seq<Entry>, a: Entry)
    requires ActsOk(k, acts) && Truthful(k, a)
    ensures ActsOk(k, acts + [a])
  {
    hide Truthful;
  }

  lemma RunningHasNotExited(w: World, pid: Pid)
    requires Inv(w) && w.stack != [] && IsProc(Top(w), pid)
    ensures pid !in ExitPids(w.exits) && (pid in w.images ==> pid in w.ran)
  {
    hide OrderOk, QueueOk, CodesOk, EndsOk, ActsOk, TreeOk, TablesOk, BaseOk;
    var f := w.stack[|w.stack| - 1];
    assert FrameOk(w.k, w.images, w.ran, f);
    if f.Child? { assert OnStack(w.stack, 0, pid); }
  }

  // ---- A process the embedder starts ----

  lemma RootKeepsInv(w: World, pid: Pid)
    requires Inv(w) && w.stack == [] && pid in w.k.procs && pid !in w.images
    requires forall c :: LiveChild(w.k, Root(pid), c) ==> c in Pids(w.k.queue)
    ensures Inv(w.(stack := [Root(pid)]))
  {
    hide QueueOk, RanOk, OrderOk, ExitsOk, CodesOk, EndsOk, ActsOk, StackOk, TreeOk, TablesOk, BaseOk,
      LiveChild;
    var v := w.(stack := [Root(pid)]);
    assert w.stack + [Root(pid)] == [Root(pid)];
    PlainExits(w.k, w.images, w.ran, w.exits, w.stack, Root(pid));
    StackPush(w.k, w.images, w.ran, w.stack, w.depth, Root(pid));
    TreePush(w.k, w.stack, Root(pid));
    TablesPlain(w, v, w.stack, Root(pid));
  }

  lemma RootLeaves(w: World, pid: Pid)
    requires Inv(w) && w.stack == [Root(pid)]
    ensures Inv(w.(stack := []))
  {
    hide QueueOk, RanOk, OrderOk, ExitsOk, CodesOk, EndsOk, ActsOk, StackOk, TreeOk, TablesOk, BaseOk;
    var v := w.(stack := []);
    assert v.stack + [Root(pid)] == w.stack;
    PlainExits(w.k, w.images, w.ran, w.exits, v.stack, Root(pid));
    StackPop(w.k, w.images, w.ran, v.stack, w.depth, Root(pid));
    TreePop(w.k, v.stack, Root(pid));
    TablesPlain(w, v, v.stack, Root(pid));
  }

  /** With nothing on the stack the tables are the embedder's own. */
  lemma Idle(w: World)
    requires Inv(w) && w.stack == []
    ensures w.depth == 0 && w.instances == w.baseInstances && w.handles == w.baseHandles
  {
  }

  // ---- What the invariant says once a drain is over ----

  /** One drain is enough: with the queue empty, a running process has no live child. */
  lemma EmptyQueueMeansNoAgain(w: World, caller: Pid, want: Pid)
    requires Inv(w) && w.stack != [] && caller in w.k.procs && IsProc(Top(w), caller)
    requires w.k.queue == []
    ensures !SysWait(w.k, caller, want).1.Again?
  {
    hide QueueOk, RanOk, OrderOk, ExitsOk, CodesOk, EndsOk, ActsOk, StackOk, TablesOk, BaseOk;
    StackSplit(w);
    forall c ensures !LiveChild(w.k, Top(w), c) {
      if LiveChild(w.k, Top(w), c) { TreeTop(w.k, Below(w), Top(w), c); }
    }
    assert forall c :: c in w.k.procs[caller].children ==> !LiveChild(w.k, Top(w), c);
    var candidates := Candidates(w.k, caller, want);
    if candidates != [] {
      assert candidates[0] in w.k.procs[caller].children;
    }
  }

  /** A live child of the process at `i` that is neither queued nor runs above it. */
  ghost predicate Stranded(w: World, i: nat, c: Pid)
    requires i < |w.stack|
  {
    LiveChild(w.k, w.stack[i], c) && c !in Pids(w.k.queue) && !OnStack(w.stack, i + 1, c)
  }

  /** The invariant excludes exactly stranded children, and children the kernel does not know. */
  lemma TreeExcludesStranded(w: World)
    ensures TreeOk(w.k, w.stack) <==>
            && (forall p, c :: p in w.k.procs && c in w.k.procs[p].children ==> c in w.k.procs)
            && (forall i, c :: 0 <= i < |w.stack| ==> !Stranded(w, i, c))
  {
    hide LiveChild, OnStack;
    if forall i, c :: 0 <= i < |w.stack| ==> !Stranded(w, i, c) {
      forall i, c | 0 <= i < |w.stack| && LiveChild(w.k, w.stack[i], c)
        ensures c in Pids(w.k.queue) || OnStack(w.stack, i + 1, c)
      {
        assert !Stranded(w, i, c);
      }
    }
  }

  /** After a drain a wait meets EAGAIN exactly when it asks for a stranded child and for none that has exited. */
  lemma DrainedAgainExactlyWhen(w: World, caller: Pid, want: Pid)
    requires w.k.queue == [] && w.stack != [] && IsProc(Top(w), caller) && caller in w.k.procs
    requires forall c :: c in w.k.procs[caller].children ==> c in w.k.procs
    ensures SysWait(w.k, caller, want).1.Again? <==>
            && (exists c :: c in Candidates(w.k, caller, want) && Stranded(w, |w.stack| - 1, c))
            && (forall c :: c in Candidates(w.k, caller, want) ==> w.k.procs[c].exit.None?)
  {
    var candidates := Candidates(w.k, caller, want);
    if candidates != [] && forall c :: c in candidates ==> w.k.procs[c].exit.None? {
      assert candidates[0] in candidates && Stranded(w, |w.stack| - 1, candidates[0]);
    }
  }

  /**
   * And a turn of the blocking loop that meets EAGAIN with nothing to drain ends where
   * it began, with the same answer: the loop would go on for ever.
   */
  lemma WaitWouldRepeat(w: World, caller: Pid, want: Pid)
    requires caller in w.k.procs && w.k.queue == [] && SysWait(w.k, caller, want).1.Again?
    ensures StepWait(LeaveWait(EnterWait(w)), caller, want) == (w, Again)
  {
    WaitFacts(w.k, caller, want);
    hide SysWait, Candidates;
    assert Below(EnterWait(w)) == w.stack;
  }

  /** Processes run in the order they were spawned, however drains nest. */
  lemma RunsInOrder(w: World)
    requires Inv(w)
    ensures w.ran <= w.spawned && (w.k.queue == [] ==> w.ran == w.spawned)
  {
    hide QueueOk, RanOk, ExitsOk, CodesOk, EndsOk, ActsOk, StackOk, TreeOk, TablesOk, BaseOk;
    assert w.ran + [] == w.ran;
  }

  /** `p` ran once, what it did is a run of its program, and its one recorded exit is the code that run ends with. */
  ghost predicate RanOnce(w: World, p: Pid) {
    && multiset(w.ran)[p] == 1
    && multiset(ExitPids(w.exits))[p] == 1
    && p in w.images && p in w.k.procs && w.k.procs[p].exit.Some?
    && w.k.procs[p].exit == EndOf(w.images[p], Acts(w.acts, p), [])
  }

  /** With the queue and the stack free of children, every child ran once and exited once. */
  lemma DrainedExactlyOnce(w: World, p: Pid)
    requires Inv(w) && w.k.queue == [] && p in w.images
    requires forall i :: 0 <= i < |w.stack| ==> !w.stack[i].Child?
    ensures RanOnce(w, p)
  {
    hide OrderOk, QueueOk, ActsOk, StackOk, TreeOk, TablesOk, BaseOk, EndOf, Acts;
    assert p in w.ran && p in ExitPids(w.exits);
    DistinctCount(w.ran, p);
    DistinctCount(ExitPids(w.exits), p);
    var i :| 0 <= i < |w.exits| && ExitPids(w.exits)[i] == p;
    assert w.exits[i].0 == p;
  }

  // ---- The recorded code, without the function that computes it ----

  lemma ToInt32Only(n: int, r: int)
    requires -0x8000_0000 <= r < 0x8000_0000 && (n - r) % 0x1_0000_0000 == 0
    ensures ToInt32(n) == r
  {
  }

  /** Where a program stops spawning: its end, or its first wait. */
  function Rest(g: Guest): Guest {
    match g
    case Spawn(_, next) => Rest(next)
    case _ => g
  }

  /** What a process must have recorded that has this program. */
  ghost predicate CodeFits(g: Guest, answers: seq<WaitResult>, exit: Option<int>)
    decreases |answers|
  {
    match Rest(g)
    case NoEntry => exit == Some(0)
    case Return => exit == Some(0)
    case Trap => exit == Some(134)
    case ProcExit(n) =>
      && exit.Some? && -0x8000_0000 <= exit.value < 0x8000_0000 && (n - exit.value) % 0x1_0000_0000 == 0
      && (-0x8000_0000 <= n < 0x8000_0000 ==> exit == Some(n))
    case Wait(_, _, success, failure, error) =>
      && answers != [] && exit.Some?
      && (answers[0].Threw? ==> exit == Some(134))
      && (answers[0].Reaped? && answers[0].status == 0 ==> CodeFits(success, answers[1..], exit))
      && (answers[0].Reaped? && answers[0].status != 0 ==> CodeFits(failure, answers[1..], exit))
      && (!answers[0].Threw? && !answers[0].Reaped? ==> CodeFits(error, answers[1..], exit))
    case Spawn(_, _) => true
  }

  /** What the waits among them returned. */
  function Answers(acts: seq<Act>): seq<WaitResult> {
    if acts == [] then [] else (if acts[0].Asked? then [acts[0].answer] else []) + Answers(acts[1..])
  }

  lemma AnswersCons(acts: seq<Act>)
    requires acts != []
    ensures acts[0].Forked? ==> Answers(acts) == Answers(acts[1..])
    ensures acts[0].Asked? ==> Answers(acts) != [] && Answers(acts)[0] == acts[0].answer
    ensures acts[0].Asked? ==> Answers(acts)[1..] == Answers(acts[1..])
  {
    if acts[0].Forked? { assert [] + Answers(acts[1..]) == Answers(acts[1..]); }
  }

  /**
   * 0 for a program that returns, the argument of proc_exit as a 32-bit integer, 134
   * for one that traps; a wait goes on as its answer says.
   */
  lemma {:induction false} EndFits(g: Guest, acts: seq<Act>, mine: seq<Pid>)
    requires EndOf(g, acts, mine).Some?
    ensures CodeFits(g, Answers(acts), EndOf(g, acts, mine))
    decreases g
  {
    hide Answers, CodeFits, Resolve, ToInt32;
    if acts != [] { AnswersCons(acts); }
    match g
    case Spawn(_, next) =>
      EndFits(next, acts[1..], if acts[0].child.Some? then mine + [acts[0].child.value] else mine);
      SpawnFits(g, Answers(acts), EndOf(g, acts, mine));
    case Wait(_, _, success, failure, error) =>
      if acts[0].answer.Reaped? {
        EndFits(if acts[0].answer.status == 0 then success else failure, acts[1..], mine);
      } else if !acts[0].answer.Threw? {
        EndFits(error, acts[1..], mine);
      }
      WaitFits(g, Answers(acts), EndOf(g, acts, mine));
    case ProcExit(n) => ExitFits(n, Answers(acts));
    case _ => PlainFits(g, Answers(acts));
  }

  lemma SpawnFits(g: Guest, answers: seq<WaitResult>, exit: Option<int>)
    requires g.Spawn? && CodeFits(g.next, answers, exit)
    ensures CodeFits(g, answers, exit)
  {
  }

  lemma WaitFits(g: Guest, answers: seq<WaitResult>, exit: Option<int>)
    requires g.Wait? && answers != [] && exit.Some?
    requires match answers[0] {
               case Threw => exit == Some(134)
               case Reaped(_, status) => CodeFits(if status == 0 then g.success else g.failure, answers[1..], exit)
               case _ => CodeFits(g.error, answers[1..], exit)
             }
    ensures CodeFits(g, answers, exit)
  {
  }

  lemma ExitFits(n: int, answers: seq<WaitResult>)
    ensures CodeFits(ProcExit(n), answers, Some(ToInt32(n)))
  {
    if -0x8000_0000 <= n < 0x8000_0000 { ToInt32Only(n, n); }
  }

  lemma PlainFits(g: Guest, answers: seq<WaitResult>)
    ensures g.NoEntry? || g.Return? ==> CodeFits(g, answers, Some(0))
    ensures g.Trap? ==> CodeFits(g, answers, Some(134))
  {
  }

  lemma RecordedFits(w: World, p: Pid)
    requires RanOnce(w, p)
    ensures CodeFits(w.images[p], Answers(Acts(w.acts, p)), w.k.procs[p].exit)
  {
    hide Acts, EndOf;
    EndFits(w.images[p], Acts(w.acts, p), []);
  }

  /** A program that spawns two children and waits for one of them asks for the pid it was given. */
  lemma AsksForItsChild(a: Guest, b: Guest, i: nat, nohang: bool, x: Guest, y: Guest, z: Guest, acts: seq<Act>)
    requires i < 2
    requires EndOf(Spawn(a, Spawn(b, Wait(NthSpawned(i), nohang, x, y, z))), acts, []).Some?
    requires acts[0].Forked? && acts[0].child.Some? && |acts| > 1 && acts[1].Forked? && acts[1].child.Some?
    ensures |acts| > 2 && acts[2].Asked? && acts[2].want == acts[i].child.value
  {
    var wait := Wait(NthSpawned(i), nohang, x, y, z);
    var c, d := acts[0].child.value, acts[1].child.value;
    assert EndOf(Spawn(b, wait), acts[1..], [] + [c]).Some?;
    assert acts[1..][0] == acts[1] && acts[1..][1..] == acts[2..];
    assert EndOf(wait, acts[2..], [] + [c] + [d]).Some?;
    assert acts[2..][0] == acts[2];
  }

  /** And one that waits for any child, or for a pid it knows, asks for that. */
  lemma AsksAsWritten(want: Target, nohang: bool, x: Guest, y: Guest, z: Guest, acts: seq<Act>, mine: seq<Pid>)
    requires EndOf(Wait(want, nohang, x, y, z), acts, mine).Some?
    ensures acts != [] && acts[0].Asked?
    ensures want.AnyChild? ==> acts[0].want == 0
    ensures want.RawPid? ==> acts[0].want == want.pid
  {
  }
}
