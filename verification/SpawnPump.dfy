/**
 * The re-entrant spawn pump: `CachedProcessEngine` and the blocking loop of
 * `host_wait`. A drain runs queued children to completion on the host's own
 * stack; such a child may spawn and wait, which drains again, one level deeper.
 */
module SpawnPump {
  import opened Wrappers
  import opened Kernel
  import opened PumpState

  /** How a guest's `_start` ends. */
  datatype Outcome = Returned | Exited(code: int) | Trapped

  function ExitCode(o: Outcome): int {
    match o
    case Returned => 0
    case Exited(n) => ToInt32(n)
    case Trapped => CHILD_TRAP_EXIT
  }

  // ---- Measures ----

  function Size(g: Guest): nat {
    match g
    case Spawn(image, next) => 2 + Size(image) + Size(next)
    case Wait(_, _, a, b, c) => 1 + Size(a) + Size(b) + Size(c)
    case _ => 1
  }

  function Weight(q: seq<Pending>): nat {
    if q == [] then 0 else 1 + Size(q[0].image) + Weight(q[1..])
  }

  /** The spawns a program can make, over all its branches and those of what it spawns. */
  function Spawns(g: Guest): nat {
    match g
    case Spawn(image, next) => 1 + Spawns(image) + Spawns(next)
    case Wait(_, _, a, b, c) => Spawns(a) + Spawns(b) + Spawns(c)
    case _ => 0
  }

  /** The processes a queue can give rise to. */
  function Population(q: seq<Pending>): (n: nat)
    ensures n >= |q|
  {
    if q == [] then 0 else 1 + Spawns(q[0].image) + Population(q[1..])
  }

  lemma HeadMeasures(q: seq<Pending>)
    requires q != []
    ensures Weight(q) == 1 + Size(q[0].image) + Weight(q[1..])
    ensures Population(q) == 1 + Spawns(q[0].image) + Population(q[1..])
  {
  }

  lemma {:induction false} TailMeasures(q: seq<Pending>, x: Pending)
    ensures Weight(q + [x]) == Weight(q) + 1 + Size(x.image)
    ensures Population(q + [x]) == Population(q) + 1 + Spawns(x.image)
    decreases |q|
  {
    if q == [] {
      assert q + [x] == [x] && [x][1..] == [];
    } else {
      assert (q + [x])[1..] == q[1..] + [x];
      TailMeasures(q[1..], x);
    }
  }

  // ---- Programs that never wait ----

  predicate WaitFree(g: Guest) {
    match g
    case Spawn(image, next) => WaitFree(image) && WaitFree(next)
    case Wait(_, _, _, _, _) => false
    case _ => true
  }

  predicate QueueWaitFree(q: seq<Pending>) {
    forall i :: 0 <= i < |q| ==> WaitFree(q[i].image)
  }

  const PID_COUNT := PID_LIMIT - FIRST_SPAWN_PID

  /** The processes there are and those the queue will still spawn. */
  function Future(k: Kernel): nat { |k.procs| + Population(k.queue) - |k.queue| }

  /** A program, and a queue, that never wait and for whose spawns there are pids. */
  predicate Tame(k: Kernel, g: Guest) {
    WaitFree(g) && QueueWaitFree(k.queue) && Future(k) + Spawns(g) <= PID_COUNT
  }

  /** From `k` to `k'` exactly the spawns of `g` and of what it spawned were added to the queue's prospects. */
  ghost predicate Exact(k: Kernel, k': Kernel, g: Guest) {
    && Population(k'.queue) == Population(k.queue) + Spawns(g)
    && Future(k') == Future(k) + Spawns(g) && QueueWaitFree(k'.queue)
  }

  lemma {:induction false} RangeIn(s: set<Pid>, lo: nat, n: nat)
    requires forall p :: lo <= p < lo + n ==> p in s
    ensures |s| >= n
    decreases n
  {
    if n == 0 {
    } else {
      RangeIn(s - {lo + n - 1}, lo, n - 1);
    }
  }

  /** While some pid is free the allocator finds one. */
  lemma AllocSucceeds(k: Kernel)
    requires |k.procs| < PID_COUNT
    ensures AllocSpawnPid(k).Some?
  {
    if AllocSpawnPid(k).None? {
      RangeIn(k.procs.Keys, FIRST_SPAWN_PID, PID_COUNT);
    }
  }

  lemma SpawnExact(k: Kernel, caller: Pid, image: Guest, next: Guest)
    requires caller in k.procs && Tame(k, Spawn(image, next))
    ensures var (k', pid) := SysSpawn(k, caller, image);
            pid.Some? && Tame(k', next) && Future(k') == Future(k) + 1 + Spawns(image)
            && Population(k'.queue) == Population(k.queue) + 1 + Spawns(image)
  {
    hide Population;
    AllocSucceeds(k);
    SpawnFacts(k, caller, image);
    var (k', pid) := SysSpawn(k, caller, image);
    hide SysSpawn, AllocSpawnPid;
    assert k'.procs.Keys == k.procs.Keys + {pid.value} && k'.queue == k.queue + [Pending(pid.value, image)];
    TailMeasures(k.queue, Pending(pid.value, image));
    assert |k'.procs| == |k'.procs.Keys| && |k.procs| == |k.procs.Keys|;
  }

  // ---- What a part of a run may change ----

  /** A process below keeps its child list and its answers. */
  ghost predicate Kept(w: World, v: World, f: Frame) {
    (f.Root? || f.Child?) && f.pid in w.k.procs ==>
      && f.pid in v.k.procs && v.k.procs[f.pid].children == w.k.procs[f.pid].children
      && Acts(v.acts, f.pid) == Acts(w.acts, f.pid)
  }

  /**
   * From `w` to `v` the logs grew, the embedder's tables stayed, and the
   * lowest `n` processes of the stack kept their child lists and answers.
   */
  ghost predicate Grew(w: World, v: World, n: nat) {
    && w.spawned <= v.spawned && w.ran <= v.ran && w.exits <= v.exits && w.acts <= v.acts
    && w.images.Keys <= v.images.Keys && (forall p :: p in w.images ==> v.images[p] == w.images[p])
    && w.k.procs.Keys <= v.k.procs.Keys
    && v.baseInstances == w.baseInstances && v.baseHandles == w.baseHandles
    && n <= |w.stack|
    && (forall i :: 0 <= i < n ==> Kept(w, v, w.stack[i]))
  }

  lemma GrewTrans(u: World, w: World, v: World, n: nat)
    requires Grew(u, w, n) && Grew(w, v, n) && u.stack == w.stack
    ensures Grew(u, v, n)
  {
    forall i | 0 <= i < n ensures Kept(u, v, u.stack[i]) { assert Kept(u, w, u.stack[i]) && Kept(w, v, w.stack[i]); }
  }

  lemma GrewRefl(w: World, n: nat)
    requires n <= |w.stack|
    ensures Grew(w, w, n)
  {
  }

  lemma GrewLess(w: World, v: World, n: nat)
    requires Grew(w, v, n) && n > 0
    ensures Grew(w, v, n - 1)
  {
    hide Kept;
  }

  lemma TopIsUnique(w: World, caller: Pid)
    requires Inv(w) && w.stack != [] && IsProc(Top(w), caller)
    ensures forall i :: 0 <= i < |w.stack| - 1 ==> !IsProc(w.stack[i], caller)
  {
    hide QueueOk, RanOk, OrderOk, ExitsOk, CodesOk, EndsOk, ActsOk, TreeOk, TablesOk, BaseOk;
    var last := |w.stack| - 1;
    forall i | 0 <= i < last ensures !IsProc(w.stack[i], caller) {
      assert w.stack[last].WaitDrain? || !IsProc(w.stack[i], w.stack[last].pid);
    }
  }

  /** A step of the process on top of the stack spares the processes below it. */
  lemma SpawnGrew(w: World, caller: Pid, image: Guest)
    requires Inv(w) && w.stack != [] && caller in w.k.procs && IsProc(Top(w), caller)
    ensures Grew(w, StepSpawn(w, caller, image).0, |w.stack| - 1)
  {
    hide Inv, SysSpawn, Acts, Spawned;
    TopIsUnique(w, caller);
    SpawnFacts(w.k, caller, image);
    SpawnIsFresh(w);
    var (v, pid) := StepSpawn(w, caller, image);
    if pid.Some? {
      SpawnSpares(w.k, v.k, caller, pid.value, image);
      forall i | 0 <= i < |w.stack| - 1 ensures Kept(w, v, w.stack[i]) {
        assert !IsProc(w.stack[i], caller);
      }
    }
  }

  lemma SpawnSpares(k: Kernel, k': Kernel, caller: Pid, pid: Pid, image: Guest)
    requires Spawned(k, k', caller, pid, image)
    ensures pid !in k.procs && k.procs.Keys <= k'.procs.Keys
    ensures forall p :: p in k.procs && p != caller ==> k'.procs[p].children == k.procs[p].children
  {
    forall p | p in k.procs && p != caller ensures k'.procs[p].children == k.procs[p].children {
      assert k.procs[p].children + [] == k.procs[p].children;
    }
  }

  lemma SpawnIsFresh(w: World)
    requires Inv(w)
    ensures w.images.Keys <= w.k.procs.Keys
  {
    hide OrderOk, QueueOk, ExitsOk, CodesOk, EndsOk, ActsOk, StackOk, TreeOk, TablesOk, BaseOk;
  }

  lemma WaitGrew(w: World, caller: Pid, want: Pid)
    requires Inv(w) && w.stack != [] && caller in w.k.procs && IsProc(Top(w), caller)
    ensures Grew(w, StepWait(w, caller, want).0, |w.stack| - 1)
  {
    TopIsUnique(w, caller);
    WaitFacts(w.k, caller, want);
    hide Inv, SysWait, Acts, Candidates;
  }

  lemma ActGrew(w: World, pid: Pid, r: Act)
    requires Inv(w) && w.stack != [] && IsProc(Top(w), pid)
    ensures Grew(w, StepAct(w, pid, r), |w.stack| - 1)
    ensures Acts(StepAct(w, pid, r).acts, pid) == Acts(w.acts, pid) + [r]
  {
    TopIsUnique(w, pid);
    hide Inv, Acts;
    var n, v := |w.stack| - 1, StepAct(w, pid, r);
    ActsPush(w.acts, (pid, r), pid);
    forall i | 0 <= i < n ensures Kept(w, v, w.stack[i]) {
      if !w.stack[i].WaitDrain? {
        ActsPush(w.acts, (pid, r), w.stack[i].pid);
        assert Acts(w.acts, w.stack[i].pid) + [] == Acts(w.acts, w.stack[i].pid);
      }
    }
  }

  /** What a drain inside host_wait leaves alone, seen from before it was entered. */
  lemma WaitDrainGrew(w: World, u: World, v: World)
    requires Grew(EnterWait(w), u, |w.stack| + 1)
    requires v == u.(stack := v.stack, depth := v.depth)
    ensures Grew(w, v, |w.stack|)
  {
    forall i | 0 <= i < |w.stack| ensures Kept(w, v, w.stack[i]) {
      assert EnterWait(w).stack[i] == w.stack[i] && Kept(EnterWait(w), u, EnterWait(w).stack[i]);
    }
  }

  lemma SameDepth(w: World, v: World)
    requires Inv(w) && Inv(v) && w.stack == v.stack
    ensures w.depth == v.depth
  {
    hide QueueOk, RanOk, OrderOk, ExitsOk, CodesOk, EndsOk, ActsOk, TreeOk, TablesOk, BaseOk;
  }

  /** One round of the drain loop: drain the head, run it, record its exit. */
  lemma RoundGrew(w: World, u: World, v: World, code: int)
    requires Inv(v) && w.k.queue != [] && u == StepDrain(w) && Grew(u, v, |w.stack|)
    requires v.stack != [] && Top(v).Child?
    ensures Grew(w, StepExit(v, code), |w.stack|) && |StepExit(v, code).ran| > |w.ran|
  {
    ExitFacts(v, code);
    hide Inv, RecordExit, Acts;
    var x := StepExit(v, code);
    forall i | 0 <= i < |w.stack| ensures Kept(w, x, w.stack[i]) {
      assert u.stack[i] == w.stack[i] && Kept(u, v, u.stack[i]);
    }
  }

  lemma PidsStay(w: World)
    requires Inv(w) && w.stack != [] && Top(w).Child?
    ensures Top(w).pid in w.images && Top(w).pid in w.k.procs
  {
    ExitFacts(w, 0);
  }

  lemma ImageStays(w: World, v: World, p: Pid)
    requires p in w.images && |w.stack| > 0 && Grew(w, v, |w.stack| - 1)
    ensures p in v.images && v.images[p] == w.images[p]
  {
    hide Kept;
  }

  lemma RegisterGrew(w: World)
    requires w.stack != [] && Top(w).Child? && Top(w).stage.Drained?
    ensures Grew(w, StepRegister(w), |w.stack| - 1)
  {
  }

  lemma ChildGrew(w: World, w1: World, w2: World, v: World)
    requires w.stack != [] && Top(w).Child? && Top(w).stage.Drained? && w1 == StepRegister(w)
    requires Grew(w1, w2, |w.stack| - 1) && w2.stack == w1.stack
    requires v == StepDeregister(w2)
    ensures Grew(w, v, |w.stack| - 1)
  {
    hide Acts;
    forall i | 0 <= i < |w.stack| - 1 ensures Kept(w, v, w.stack[i]) {
      assert w1.stack[i] == w.stack[i] && Kept(w1, w2, w1.stack[i]);
    }
  }

  lemma SameCandidates(w: World, v: World, caller: Pid, want: Pid)
    requires w.stack != [] && IsProc(Top(w), caller) && caller in w.k.procs
    requires Grew(w, v, |w.stack|)
    ensures caller in v.k.procs && v.k.procs[caller].children == w.k.procs[caller].children
    ensures Candidates(v.k, caller, want) == Candidates(w.k, caller, want)
    ensures Acts(v.acts, caller) == Acts(w.acts, caller)
  {
    assert Kept(w, v, w.stack[|w.stack| - 1]);
    hide Acts;
  }

  /** The rest of a guest after a wait. */
  function Resumed(g: Guest, r: WaitResult): Guest
    requires g.Wait? && !r.Threw?
  {
    match r
    case Reaped(_, status) => if status == 0 then g.success else g.failure
    case _ => g.error
  }

  lemma EndOfWait(g: Guest, mine: seq<Pid>, r: WaitResult, rest: seq<Act>)
    requires g.Wait?
    ensures r.Threw? ==> EndOf(g, [Asked(Resolve(g.want, mine), r)], mine) == Some(CHILD_TRAP_EXIT)
    ensures !r.Threw? ==> EndOf(g, [Asked(Resolve(g.want, mine), r)] + rest, mine) == EndOf(Resumed(g, r), rest, mine)
  {
    if !r.Threw? {
      var all := [Asked(Resolve(g.want, mine), r)] + rest;
      assert all[0].answer == r && all[1..] == rest;
    }
  }

  lemma EndOfSpawn(g: Guest, mine: seq<Pid>, child: Option<Pid>, rest: seq<Act>)
    requires g.Spawn?
    ensures EndOf(g, [Forked(child)] + rest, mine) ==
            EndOf(g.next, rest, if child.Some? then mine + [child.value] else mine)
  {
    assert ([Forked(child)] + rest)[1..] == rest;
  }

  lemma ResumedMeasures(g: Guest, r: WaitResult)
    requires g.Wait? && !r.Threw?
    ensures Size(Resumed(g, r)) < Size(g) && Spawns(Resumed(g, r)) <= Spawns(g)
  {
  }

  class CachedProcessEngine {
    var k: Kernel
    var drainDepth: nat
    var instances: map<Handle, Pid>
    var handlesByPid: map<Pid, Handle>
    var nextHandle: Handle
    ghost var stack: seq<Frame>
    ghost var spawned: seq<Pid>
    ghost var ran: seq<Pid>
    ghost var exits: seq<(Pid, int)>
    ghost var acts: seq<Entry>
    ghost var images: map<Pid, Guest>
    ghost var baseInstances: map<Handle, Pid>
    ghost var baseHandles: map<Pid, Handle>

    ghost function W(): World
      reads this
    {
      World(k, drainDepth, instances, handlesByPid, nextHandle, stack, spawned, ran, exits, acts, images,
            baseInstances, baseHandles)
    }

    /** A fresh engine over a kernel that may already hold queued spawns. */
    constructor (k: Kernel, ghost images: map<Pid, Guest>)
      requires Inv(Fresh(k, images))
      ensures W() == Fresh(k, images)
    {
      this.k, drainDepth, instances, handlesByPid, nextHandle := k, 0, map[], map[], 1;
      stack, spawned, ran, exits, acts, this.images := [], Pids(k.queue), [], [], [], images;
      baseInstances, baseHandles := map[], map[];
    }

    /**
     * The embedder's drain, with no guest on the stack: every process queued or
     * spawned on the way has run once, in the order of spawning, and its exit is recorded once, with the code
     * its program reaches on the answers its waits got; unless the runaway guard
     * fired, which a small enough population rules out.
     */
    method RunPendingSpawnsFromHost() returns (ok: bool)
      requires Inv(W()) && stack == []
      modifies this
      ensures Inv(W()) && stack == [] && drainDepth == 0
      ensures instances == old(instances) && handlesByPid == old(handlesByPid)
      ensures old(images).Keys <= images.Keys
      ensures old(spawned) <= spawned && ran <= spawned && (ok ==> ran == spawned)
      ensures ok ==> k.queue == [] && forall p :: p in images ==> RanOnce(W(), p)
      ensures ok ==> forall p :: p in images ==>
                p in k.procs && CodeFits(images[p], Answers(Acts(acts, p)), k.procs[p].exit)
      ensures !ok ==> |ran| >= |old(ran)| + RUNAWAY_LIMIT
      ensures old(Population(k.queue)) < RUNAWAY_LIMIT ==> ok
      ensures old(Tame(k, Return)) ==> (ok <==> old(Population(k.queue)) < RUNAWAY_LIMIT)
    {
      hide Inv, RanOnce, Population, Tame, CodeFits, Acts, Answers;
      Idle(W());
      ghost var w := W();
      ok := RunPendingSpawns();
      Idle(W());
      RunsInOrder(W());
      if ok {
        forall p | p in images
          ensures RanOnce(W(), p)
          ensures p in k.procs && CodeFits(images[p], Answers(Acts(acts, p)), k.procs[p].exit)
        {
          DrainedExactlyOnce(W(), p);
          RecordedFits(W(), p);
          KnowsRan(W(), p);
        }
      }
    }

    /** `_start` of a process the embedder created, whose live children are all queued. */
    method RunStart(pid: Pid, g: Guest) returns (o: Outcome, ghost got: seq<Act>)
      requires Inv(W()) && stack == [] && pid in k.procs && pid !in images
      requires forall c :: c in k.procs[pid].children && c in k.procs && k.procs[c].exit.None? ==>
                 c in Pids(k.queue)
      modifies this
      ensures Inv(W()) && stack == [] && drainDepth == 0
      ensures instances == old(instances) && handlesByPid == old(handlesByPid)
      ensures Acts(acts, pid) == old(Acts(acts, pid)) + got && EndOf(g, got, []) == Some(ExitCode(o))
    {
      hide Inv, EndOf, Acts;
      Idle(W());
      RootKeepsInv(W(), pid);
      stack := [Root(pid)];
      ghost var w := W();
      o, got := RunGuest(pid, g, []);
      RootLeaves(W(), pid);
      stack := [];
      Idle(W());
    }

    /** `SYS_SPAWN` on behalf of the running process. */
    method HostSpawn(pid: Pid, image: Guest) returns (child: Option<Pid>)
      requires Inv(W()) && stack != [] && pid in k.procs && IsProc(Top(W()), pid)
      modifies this
      ensures (W(), child) == StepSpawn(old(W()), pid, image)
      ensures stack == old(stack) && acts == old(acts) && pid in k.procs
      ensures Inv(W()) && Grew(old(W()), W(), |stack| - 1)
      ensures Weight(k.queue) <= old(Weight(k.queue)) + 1 + Size(image)
      ensures Population(k.queue) <= old(Population(k.queue)) + 1 + Spawns(image)
      ensures k == old(SysSpawn(k, pid, image)).0 && (child.Some? ==> child.value in k.procs)
    {
      hide Inv, Grew, Weight, Population;
      StepSpawnKeepsInv(W(), pid, image);
      SpawnGrew(W(), pid, image);
      SpawnFacts(k, pid, image);
      var (k', c) := SysSpawn(k, pid, image);
      child := c;
      k := k';
      if c.Some? {
        TailMeasures(old(k.queue), Pending(c.value, image));
        images := images[c.value := image];
        spawned := spawned + [c.value];
      }
    }

    /** Runs one drained child to its end, keeping it in the tables meanwhile. */
    method RunCachedChild(pid: Pid, image: Guest) returns (code: int)
      requires Inv(W()) && stack != [] && Top(W()) == Child(pid, Drained)
      requires pid in images && images[pid] == image && Acts(acts, pid) == []
      modifies this
      decreases Size(image) + Weight(k.queue), 2
      ensures Inv(W()) && stack == old(stack[..|stack| - 1]) + [Child(pid, Done)]
      ensures Grew(old(W()), W(), |stack| - 1)
      ensures EndOf(image, Acts(acts, pid), []) == Some(code)
      ensures Weight(k.queue) <= old(Weight(k.queue)) + Size(image)
      ensures Population(k.queue) <= old(Population(k.queue)) + Spawns(image)
      ensures old(Tame(k, image)) ==> Exact(old(k), k, image)
    {
      hide Inv, Grew, Weight, Population, Tame, Exact, Acts, EndOf, StepRegister, StepDeregister;
      ghost var w0 := W();
      PidsStay(w0);
      var handle := Register(pid);
      ghost var w1 := W();
      RegisterGrew(w0);
      GrewRefl(w1, |stack| - 1);
      var o := Returned;
      ghost var got: seq<Act> := [];
      if image.NoEntry? {
        NoEntryEnds(k, image);
      } else {
        o, got := RunGuest(pid, image, []);
      }
      assert [] + got == got;
      ghost var w2 := W();
      Deregister(pid, handle);
      code := ExitCode(o);
      ChildGrew(w0, w1, w2, W());
    }

    /** Enters the drained child into both tables under a new handle. */
    method Register(pid: Pid) returns (handle: Handle)
      requires Inv(W()) && stack != [] && Top(W()) == Child(pid, Drained)
      modifies this
      ensures W() == StepRegister(old(W())) && Inv(W())
      ensures stack == old(stack[..|stack| - 1]) + [Child(pid, Registered(handle))]
      ensures k == old(k) && acts == old(acts) && images == old(images)
    {
      hide Inv;
      StepRegisterKeepsInv(W());
      handle := nextHandle;
      nextHandle := nextHandle + 1;
      instances := instances[handle := pid];
      handlesByPid := handlesByPid[pid := handle];
      stack := stack[..|stack| - 1] + [Child(pid, Registered(handle))];
    }

    /** Takes the child out of both tables again. */
    method Deregister(pid: Pid, handle: Handle)
      requires Inv(W()) && stack != [] && Top(W()) == Child(pid, Registered(handle))
      modifies this
      ensures W() == StepDeregister(old(W())) && Inv(W())
      ensures stack == old(stack[..|stack| - 1]) + [Child(pid, Done)]
      ensures k == old(k) && acts == old(acts) && images == old(images)
    {
      hide Inv;
      StepDeregisterKeepsInv(W());
      instances := instances - {handle};
      handlesByPid := handlesByPid - {pid};
      stack := stack[..|stack| - 1] + [Child(pid, Done)];
    }

    /**
     * Interprets the rest of a guest; `mine` lists the children it has spawned. The
     * outcome is the one its program reaches with the spawns and waits it made.
     */
    method RunGuest(pid: Pid, g: Guest, mine: seq<Pid>) returns (o: Outcome, ghost got: seq<Act>)
      requires Inv(W()) && stack != [] && pid in k.procs && IsProc(Top(W()), pid)
      modifies this
      decreases Size(g) + Weight(k.queue), 1
      ensures Inv(W()) && stack == old(stack)
      ensures Grew(old(W()), W(), |stack| - 1)
      ensures Acts(acts, pid) == old(Acts(acts, pid)) + got && EndOf(g, got, mine) == Some(ExitCode(o))
      ensures Weight(k.queue) <= old(Weight(k.queue)) + Size(g)
      ensures Population(k.queue) <= old(Population(k.queue)) + Spawns(g)
      ensures old(Tame(k, g)) ==> Exact(old(k), k, g)
    {
      hide Inv, Grew, Weight, Population, Acts, Tame, Exact, IsProc;
      GrewRefl(W(), |stack| - 1);
      got := [];
      assert Acts(acts, pid) + got == Acts(acts, pid);
      if !g.Spawn? && !g.Wait? { LeafExact(k, g); }
      match g
      case NoEntry => o := Returned;
      case Return => o := Returned;
      case ProcExit(n) => o := Exited(n);
      case Trap => o := Trapped;
      case Spawn(_, _) => o, got := RunSpawn(pid, g, mine);
      case Wait(want, nohang, _, _, _) =>
        NotTame(k, g);
        o, got := RunWait(pid, g, Resolve(want, mine), nohang, mine);
    }

    /** A guest at a spawn: it goes on knowing the child, if there is one. */
    method RunSpawn(pid: Pid, g: Guest, mine: seq<Pid>) returns (o: Outcome, ghost got: seq<Act>)
      requires Inv(W()) && stack != [] && pid in k.procs && IsProc(Top(W()), pid) && g.Spawn?
      modifies this
      decreases Size(g) + Weight(k.queue), 0
      ensures Inv(W()) && stack == old(stack)
      ensures Grew(old(W()), W(), |stack| - 1)
      ensures Acts(acts, pid) == old(Acts(acts, pid)) + got && EndOf(g, got, mine) == Some(ExitCode(o))
      ensures Weight(k.queue) <= old(Weight(k.queue)) + Size(g)
      ensures Population(k.queue) <= old(Population(k.queue)) + Spawns(g)
      ensures old(Tame(k, g)) ==> Exact(old(k), k, g)
    {
      hide Inv, Grew, StepSpawn, SysSpawn, Weight, Population, Acts, Tame, Exact, IsProc, StepAct, EndOf;
      ghost var w0 := W();
      ghost var before := Acts(acts, pid);
      if Tame(k, g) { SpawnExact(k, pid, g.image, g.next); }
      var child := HostSpawn(pid, g.image);
      ghost var w1 := W();
      Logged(pid, Forked(child));
      ghost var w2 := W();
      GrewTrans(w0, w1, w2, |stack| - 1);
      ghost var rest;
      o, rest := RunGuest(pid, g.next, if child.Some? then mine + [child.value] else mine);
      got := [Forked(child)] + rest;
      EndOfSpawn(g, mine, child, rest);
      GrewTrans(w0, w2, W(), |stack| - 1);
      assert before + [Forked(child)] + rest == before + got;
      if Tame(w0.k, g) { SpawnThenExact(w0.k, w1.k, k, g.image, g.next); }
    }

    /** A guest at a wait: the answer decides how it goes on. */
    method RunWait(pid: Pid, g: Guest, want: Pid, nohang: bool, mine: seq<Pid>)
      returns (o: Outcome, ghost got: seq<Act>)
      requires Inv(W()) && stack != [] && pid in k.procs && IsProc(Top(W()), pid) && g.Wait?
      requires want == Resolve(g.want, mine)
      modifies this
      decreases Size(g) + Weight(k.queue), 0
      ensures Inv(W()) && stack == old(stack)
      ensures Grew(old(W()), W(), |stack| - 1)
      ensures Acts(acts, pid) == old(Acts(acts, pid)) + got && EndOf(g, got, mine) == Some(ExitCode(o))
      ensures Weight(k.queue) <= old(Weight(k.queue)) + Size(g)
      ensures Population(k.queue) <= old(Population(k.queue)) + Spawns(g)
    {
      hide Inv, Grew, Weight, Population, Acts, EndOf, Size, Spawns, Resumed, IsProc, StepAct, SysWait,
        StepWait, Candidates;
      ghost var w0 := W();
      ghost var before := Acts(acts, pid);
      SizePositive(g);
      var r := HostWait(pid, want, nohang);
      ghost var w1 := W();
      Logged(pid, Asked(want, r));
      ghost var w2 := W();
      GrewTrans(w0, w1, w2, |stack| - 1);
      if r.Threw? {
        o, got := Trapped, [Asked(want, r)];
        EndOfWait(g, mine, r, []);
        return;
      }
      ResumedMeasures(g, r);
      ghost var rest;
      o, rest := RunGuest(pid, Resumed(g, r), mine);
      got := [Asked(want, r)] + rest;
      EndOfWait(g, mine, r, rest);
      GrewTrans(w0, w2, W(), |stack| - 1);
      assert before + [Asked(want, r)] + rest == before + got;
    }

    /** A spawn or a wait returns to the guest. */
    ghost method Logged(pid: Pid, r: Act)
      requires Inv(W()) && stack != [] && pid in k.procs && IsProc(Top(W()), pid) && Truthful(k, (pid, r))
      modifies this`acts
      ensures Inv(W()) && Grew(old(W()), W(), |stack| - 1) && W() == StepAct(old(W()), pid, r)
      ensures Acts(acts, pid) == old(Acts(acts, pid)) + [r]
    {
      hide Inv, Grew, Acts, Truthful;
      StepActKeepsInv(W(), pid, r);
      ActGrew(W(), pid, r);
      acts := acts + [(pid, r)];
    }

    /** The blocking loop of `host_wait`. */
    method HostWait(pid: Pid, want: Pid, nohang: bool) returns (r: WaitResult)
      requires Inv(W()) && stack != [] && pid in k.procs && IsProc(Top(W()), pid)
      modifies this
      decreases Weight(k.queue), 2
      ensures Inv(W()) && stack == old(stack) && pid in k.procs
      ensures Grew(old(W()), W(), |stack| - 1) && Acts(acts, pid) == old(Acts(acts, pid))
      ensures Weight(k.queue) <= old(Weight(k.queue))
      ensures Population(k.queue) <= old(Population(k.queue))
      ensures old(Population(k.queue)) < RUNAWAY_LIMIT ==> !r.Threw?
      ensures r.Threw? ==> |ran| >= |old(ran)| + RUNAWAY_LIMIT
      // A call that need not block is one SYS_WAIT.
      ensures nohang || !old(SysWait(k, pid, want)).1.Again? ==> (W(), r) == old(StepWait(W(), pid, want))
      // A blocking call fails with -EDEADLK exactly at the depth limit, and then changes nothing.
      ensures r.Deadlock? <==>
              !nohang && old(SysWait(k, pid, want)).1.Again? && old(drainDepth) >= 256
      ensures r.Deadlock? ==> W() == old(W())
      // Otherwise it ends with a reaped child of the caller, never with -EAGAIN or -ECHILD.
      ensures !nohang && old(SysWait(k, pid, want)).1.Again? && !r.Deadlock? && !r.Threw? ==>
              k.queue == [] && r.Reaped? && r.pid in old(Candidates(k, pid, want))
      ensures r.Reaped? ==> r.pid in old(k.procs[pid].children) && r.pid !in k.procs[pid].children
                            && r.pid in k.procs && k.procs[r.pid].exit == Some(r.status)
                            && (want == 0 || r.pid == want)
    {
      hide Inv, Grew, Weight, Population, SysWait, StepWait, Candidates, Acts, IsProc;
      ghost var w0 := W();
      GrewRefl(w0, |stack| - 1);
      r := WaitOnce(pid, want);
      ghost var r1, w1 := r, W();
      while r == Again && !nohang
        invariant Inv(W()) && stack == old(stack) && Grew(w0, W(), |stack| - 1) && pid in k.procs
        invariant Acts(acts, pid) == old(Acts(acts, pid))
        invariant r == Again ==> W() == w0
        invariant !r.Threw? && !r.Deadlock?
        invariant nohang || !r1.Again? ==> r == r1 && W() == w1
        invariant Weight(k.queue) <= old(Weight(k.queue)) && Population(k.queue) <= old(Population(k.queue))
        invariant !nohang && r1.Again? && !r.Again? ==>
                  old(drainDepth) < MAX_DRAIN_DEPTH && k.queue == [] && r.Reaped?
                  && r.pid in old(Candidates(k, pid, want))
        invariant r.Reaped? ==> r.pid in old(k.procs[pid].children) && r.pid !in k.procs[pid].children
                                && r.pid in k.procs && k.procs[r.pid].exit == Some(r.status)
                                && (want == 0 || r.pid == want)
        decreases if r == Again then 1 else 0
      {
        if drainDepth >= MAX_DRAIN_DEPTH {
          return Deadlock;
        }
        var ok := DrainForWait();
        ghost var w2 := W();
        SameCandidates(w0, w2, pid, want);
        GrewLess(w0, w2, |stack|);
        if !ok {
          return Threw;
        }
        EmptyQueueMeansNoAgain(w2, pid, want);
        r := WaitOnce(pid, want);
        GrewTrans(w0, w2, W(), |stack| - 1);
      }
    }

    method WaitOnce(pid: Pid, want: Pid) returns (r: WaitResult)
      requires Inv(W()) && stack != [] && pid in k.procs && IsProc(Top(W()), pid)
      modifies this
      ensures (W(), r) == StepWait(old(W()), pid, want) && r == old(SysWait(k, pid, want)).1
      ensures Inv(W()) && stack == old(stack) && acts == old(acts) && k.queue == old(k.queue) && pid in k.procs
      ensures drainDepth == old(drainDepth)
      ensures Grew(old(W()), W(), |stack| - 1)
      ensures !r.Reaped? ==> W() == old(W())
      ensures !r.Threw? && !r.Deadlock?
      ensures r.NoChild? <==> old(Candidates(k, pid, want)) == []
      ensures r.Reaped? ==>
                r.pid in old(Candidates(k, pid, want)) && r.pid in old(k.procs[pid].children)
                && r.pid !in k.procs[pid].children
                && r.pid in k.procs && k.procs[r.pid].exit == Some(r.status) && (want == 0 || r.pid == want)
    {
      CandidatesAsked(k, pid, want);
      hide Inv, Grew, Candidates;
      WaitGrew(W(), pid, want);
      WaitFacts(k, pid, want);
      StepWaitKeepsInv(W(), pid, want);
      var (k1, r1) := SysWait(k, pid, want);
      hide SysWait;
      k, r := k1, r1;
    }

    /** A drain one level deeper, with the depth counter put back however it ends. */
    method DrainForWait() returns (ok: bool)
      requires Inv(W()) && stack != [] && drainDepth < MAX_DRAIN_DEPTH
      modifies this
      decreases Weight(k.queue), 1
      ensures Inv(W()) && stack == old(stack) && drainDepth == old(drainDepth)
      ensures Grew(old(W()), W(), |stack|)
      ensures ok ==> k.queue == []
      ensures old(k.queue) == [] ==> ok && W() == old(W())
      ensures !ok ==> |ran| >= |old(ran)| + RUNAWAY_LIMIT
      ensures Weight(k.queue) <= old(Weight(k.queue))
      ensures Population(k.queue) <= old(Population(k.queue))
      ensures old(Population(k.queue)) < RUNAWAY_LIMIT ==> ok
    {
      hide Inv, Grew, Weight, Population, Tame;
      ghost var w := W();
      EnterWaitKeepsInv(w);
      drainDepth := drainDepth + 1;
      stack := stack + [WaitDrain];
      assert W() == EnterWait(w);
      ok := RunPendingSpawns();
      ghost var u := W();
      LeaveWaitKeepsInv(u);
      drainDepth := drainDepth - 1;
      stack := stack[..|stack| - 1];
      WaitDrainGrew(w, u, W());
      SameDepth(w, W());
    }

    /**
     * The flat drain loop; `ok` is false when the runaway guard throws. The guard
     * counts rounds, not what is left: with programs that never wait it throws
     * exactly when the queue stood for 100 000 processes or more, and with exactly
     * that many it throws on an empty queue.
     */
    method RunPendingSpawns() returns (ok: bool)
      requires Inv(W())
      modifies this
      decreases Weight(k.queue), 0
      ensures Inv(W()) && stack == old(stack)
      ensures Grew(old(W()), W(), |stack|)
      ensures ok ==> k.queue == []
      ensures old(k.queue) == [] ==> ok && W() == old(W())
      ensures !ok ==> |ran| >= |old(ran)| + RUNAWAY_LIMIT
      ensures Weight(k.queue) <= old(Weight(k.queue))
      ensures Population(k.queue) <= old(Population(k.queue))
      ensures old(Population(k.queue)) < RUNAWAY_LIMIT ==> ok
      ensures old(Tame(k, Return)) ==>
                && (ok <==> old(Population(k.queue)) < RUNAWAY_LIMIT)
                && (!ok ==> Population(k.queue) == old(Population(k.queue)) - RUNAWAY_LIMIT)
      ensures old(Tame(k, Return)) && old(Population(k.queue)) == RUNAWAY_LIMIT ==> !ok && k.queue == []
    {
      hide Inv, Grew, Weight, Population, Tame, Exact, StepDrain, StepExit, Acts, EndOf;
      ghost var w0 := W();
      GrewRefl(w0, |stack|);
      var iterations := 0;
      while true
        invariant Inv(W()) && stack == old(stack) && Grew(w0, W(), |stack|)
        invariant Weight(k.queue) <= old(Weight(k.queue))
        invariant old(k.queue) == [] ==> iterations == 0 && W() == w0
        invariant 0 <= iterations <= RUNAWAY_LIMIT && |ran| >= |old(ran)| + iterations
        invariant iterations + Population(k.queue) <= old(Population(k.queue))
        invariant old(Tame(k, Return)) ==>
                    Tame(k, Return) && iterations + Population(k.queue) == old(Population(k.queue))
        decreases Weight(k.queue)
      {
        NonEmptyPopulation(k.queue);
        iterations := iterations + 1;
        if iterations > RUNAWAY_LIMIT {
          return false;
        }
        if k.queue == [] {
          return true;
        }
        ghost var w := W();
        HeadMeasures(k.queue);
        HeadTame(k);
        var p := DrainOnePendingSpawn();
        ghost var u := W();
        var code := RunCachedChild(p.child, p.image);
        ghost var v := W();
        ImageStays(u, v, p.child);
        RecordChildExit(p.child, code);
        RoundGrew(w, u, v, code);
        RoundTame(w.k, u.k, v.k, k, p.child, code);
        GrewTrans(w0, w, W(), |stack|);
      }
    }

    /** Takes the head of the kernel's spawn queue. */
    method DrainOnePendingSpawn() returns (p: Pending)
      requires Inv(W()) && k.queue != []
      modifies this
      ensures W() == StepDrain(old(W())) && Inv(W())
      ensures p == old(k.queue[0]) && k == old(k.(queue := k.queue[1..]))
      ensures stack == old(stack) + [Child(p.child, Drained)] && acts == old(acts)
      ensures p.child in images && images[p.child] == p.image && Acts(acts, p.child) == []
    {
      hide Inv, Acts;
      StepDrainKeepsInv(W());
      HeadQueued(W());
      p := k.queue[0];
      k := k.(queue := k.queue[1..]);
      stack := stack + [Child(p.child, Drained)];
      ran := ran + [p.child];
    }

    /** `recordExit` for a child whose run is over; the kernel always knows the pid. */
    method RecordChildExit(pid: Pid, code: int)
      requires Inv(W()) && stack != [] && Top(W()) == Child(pid, Done)
      requires pid in images && EndOf(images[pid], Acts(acts, pid), []) == Some(code)
      modifies this
      ensures W() == StepExit(old(W()), code) && Inv(W())
      ensures stack == old(stack[..|stack| - 1]) && k.queue == old(k.queue)
      ensures (k, true) == old(RecordExit(k, pid, code))
    {
      hide Inv, EndOf, Acts;
      ExitFacts(W(), code);
      StepExitKeepsInv(W(), code);
      var (k', found) := RecordExit(k, pid, code);
      k := k';
      exits := exits + [(pid, code)];
      stack := stack[..|stack| - 1];
    }
  }

  lemma CandidatesAsked(k: Kernel, caller: Pid, want: Pid)
    requires caller in k.procs
    ensures forall c :: c in Candidates(k, caller, want) ==> want == 0 || c == want
  {
  }

  lemma KnowsRan(w: World, p: Pid)
    requires RanOnce(w, p)
    ensures p in w.k.procs
  {
  }

  lemma NoEntryEnds(k: Kernel, g: Guest)
    requires g.NoEntry?
    ensures EndOf(g, [], []) == Some(0) && Spawns(g) == 0 && (Tame(k, g) ==> Exact(k, k, g))
  {
  }

  lemma LeafExact(k: Kernel, g: Guest)
    requires !g.Spawn? && !g.Wait?
    ensures Tame(k, g) ==> Exact(k, k, g)
  {
    hide Population;
  }

  lemma NotTame(k: Kernel, g: Guest)
    requires g.Wait?
    ensures !Tame(k, g)
  {
    hide Population;
  }

  lemma SizePositive(g: Guest)
    requires g.Wait?
    ensures Size(g) > 0
  {
  }

  lemma SpawnThenExact(k: Kernel, k1: Kernel, k2: Kernel, image: Guest, next: Guest)
    requires Future(k1) == Future(k) + 1 + Spawns(image) &&
        Population(k1.queue) == Population(k.queue) + 1 + Spawns(image)
    requires Tame(k1, next) && Exact(k1, k2, next)
    ensures Exact(k, k2, Spawn(image, next))
  {
    hide Population, Future;
  }

  lemma NonEmptyPopulation(q: seq<Pending>)
    ensures Population(q) == 0 ==> q == []
    ensures q == [] ==> Population(q) == 0
  {
  }

  /** A tame queue without its head suits the head. */
  lemma HeadTame(k: Kernel)
    requires k.queue != []
    ensures Tame(k, Return) ==> Tame(k.(queue := k.queue[1..]), k.queue[0].image)
  {
    HeadMeasures(k.queue);
    hide Population;
  }

  lemma RoundTame(k: Kernel, u: Kernel, v: Kernel, k': Kernel, p: Pid, code: int)
    requires k.queue != [] && u == k.(queue := k.queue[1..]) && (k', true) == RecordExit(v, p, code)
    requires Tame(u, k.queue[0].image) ==> Exact(u, v, k.queue[0].image)
    ensures Tame(k, Return) ==> Tame(k', Return) && Population(k'.queue) + 1 == Population(k.queue)
  {
    HeadTame(k);
    HeadMeasures(k.queue);
    hide Population;
    assert k'.procs.Keys == v.procs.Keys;
    assert |k'.procs| == |k'.procs.Keys| && |v.procs| == |v.procs.Keys|;
  }

  // ---- The guard on a queue of programs that only return ----

  function PlainProcs(n: nat): (r: map<Pid, Process>)
    ensures |r| == n && forall p :: p in r <==> FIRST_SPAWN_PID <= p < FIRST_SPAWN_PID + n
    ensures forall p :: p in r ==> r[p] == Process(0, [], None)
  {
    if n == 0 then map[] else PlainProcs(n - 1)[FIRST_SPAWN_PID + n - 1 := Process(0, [], None)]
  }

  function PlainQueue(n: nat): (q: seq<Pending>)
    ensures |q| == n && forall i :: 0 <= i < n ==> q[i] == Pending(FIRST_SPAWN_PID + i, Return)
  {
    if n == 0 then [] else PlainQueue(n - 1) + [Pending(FIRST_SPAWN_PID + n - 1, Return)]
  }

  function PlainKernel(n: nat): Kernel { Kernel(PlainProcs(n), PlainQueue(n), FIRST_SPAWN_PID) }

  ghost function PlainImages(n: nat): map<Pid, Guest> {
    map p | p in PlainProcs(n) :: Return
  }

  lemma PlainInv(n: nat)
    ensures Inv(Fresh(PlainKernel(n), PlainImages(n)))
  {
    hide PlainProcs, PlainQueue, Inv;
    var k, images := PlainKernel(n), PlainImages(n);
    var pids := Pids(k.queue);
    forall p | p in images ensures p in pids { assert pids[p - FIRST_SPAWN_PID] == p; }
    forall i | 0 <= i < |k.queue| ensures Queued(k, images, [], k.queue[i]) {
    }
    assert QueueOk(k, images, []) && RanOk(k, images, []);
    FreshInv(k, images);
  }

  lemma {:induction false} PlainPopulation(n: nat)
    ensures Population(PlainQueue(n)) == n
  {
    if n == 0 {
    } else {
      PlainPopulation(n - 1);
      hide Population;
      TailMeasures(PlainQueue(n - 1), Pending(FIRST_SPAWN_PID + n - 1, Return));
    }
  }

  /**
   * Draining `n` programs that only return fails exactly from 100 000 on; with
   * exactly that many, all have run and the queue is empty when the guard throws.
   */
  method DrainPlain(n: nat) returns (e: CachedProcessEngine, ok: bool)
    requires n <= PID_COUNT
    ensures ok <==> n < 100_000
    ensures n == 100_000 ==> !ok && e.k.queue == []
  {
    hide Inv, Population, PlainProcs, PlainQueue;
    PlainInv(n);
    PlainPopulation(n);
    var k := PlainKernel(n);
    assert Tame(k, Return);
    e := new CachedProcessEngine(k, PlainImages(n));
    hide Tame;
    ok := e.RunPendingSpawns();
  }
}
