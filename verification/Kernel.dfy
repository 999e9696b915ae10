/**
 * The process table of the Rust kernel as far as the spawn pump drives it:
 * spawning, the FIFO of pending spawns, exit recording and `wait`.
 */
module Kernel {
  import opened Wrappers

  type Pid = nat

  const FIRST_SPAWN_PID: Pid := 1000
  const PID_LIMIT: Pid := 0x1_0000_0000

  /** The allocator's 32-bit cursor. */
  type Cursor = n: int | 0 <= n < 0x1_0000_0000

  /** What a guest asks `wait` for: any child, its i-th spawned child, or a literal pid. */
  datatype Target = AnyChild | NthSpawned(i: nat) | RawPid(pid: Pid)

  /**
   * A guest program as a finite tree of its process-related behaviour. A wait
   * branches on how the call ends: a reaped child with status zero, one with
   * another status, or an errno.
   */
  datatype Guest =
    | NoEntry
    | Return
    | ProcExit(code: int)
    | Trap
    | Spawn(image: Guest, next: Guest)
    | Wait(want: Target, nohang: bool, success: Guest, failure: Guest, error: Guest)

  datatype Process = Process(ppid: Pid, children: seq<Pid>, exit: Option<int>)

  datatype Pending = Pending(child: Pid, image: Guest)

  datatype Kernel = Kernel(procs: map<Pid, Process>, queue: seq<Pending>, nextSpawn: Cursor)

  datatype WaitResult = Reaped(pid: Pid, status: int) | Again | NoChild | Deadlock | Threw

  // ---- Pid allocation ----

  function FirstFree(procs: map<Pid, Process>, from: Pid, end: Pid): (r: Option<Pid>)
    ensures r.Some? ==> from <= r.value < end && r.value !in procs
    ensures r.None? ==> forall p :: from <= p < end ==> p in procs
    decreases end - from
  {
    if from >= end then None
    else if from !in procs then Some(from)
    else FirstFree(procs, from + 1, end)
  }

  /** Next free pid at or after the cursor, wrapping from the top of u32 back to 1000. */
  function AllocSpawnPid(k: Kernel): (r: Option<Pid>)
    ensures r.Some? ==> r.value !in k.procs && 1000 <= r.value < 0x1_0000_0000
    ensures r.None? ==> forall p :: 1000 <= p < 0x1_0000_0000 ==> p in k.procs
  {
    var first := if k.nextSpawn < FIRST_SPAWN_PID then FIRST_SPAWN_PID else k.nextSpawn;
    var up := FirstFree(k.procs, first, PID_LIMIT);
    if up.Some? then up else FirstFree(k.procs, FIRST_SPAWN_PID, first)
  }

  function CursorAfter(pid: Pid): Cursor {
    if pid + 1 < PID_LIMIT then pid + 1 else FIRST_SPAWN_PID
  }

  // ---- System calls ----

  /** SYS_SPAWN: a fresh child of `caller`, appended to the spawn queue. */
  function SysSpawn(k: Kernel, caller: Pid, image: Guest): (Kernel, Option<Pid>)
    requires caller in k.procs
  {
    var pid := AllocSpawnPid(k);
    if pid.None? then (k, None) else
    var child := pid.value;
    var parent := k.procs[caller];
    var procs := k.procs[child := Process(caller, [], None)]
                        [caller := parent.(children := parent.children + [child])];
    (Kernel(procs, k.queue + [Pending(child, image)], CursorAfter(child)), pid)
  }

  /** First pid of `candidates` whose exit status is recorded. */
  function FirstExited(procs: map<Pid, Process>, candidates: seq<Pid>): (r: Option<Pid>)
    ensures r.Some? ==> r.value in candidates && r.value in procs && procs[r.value].exit.Some?
    ensures r.None? ==> forall c :: c in candidates && c in procs ==> procs[c].exit.None?
  {
    if candidates == [] then None
    else if candidates[0] in procs && procs[candidates[0]].exit.Some? then Some(candidates[0])
    else FirstExited(procs, candidates[1..])
  }

  function Candidates(k: Kernel, caller: Pid, want: Pid): seq<Pid>
    requires caller in k.procs
  {
    if want == 0 then k.procs[caller].children
    else if want in k.procs[caller].children then [want]
    else []
  }

  /** The list with every `x` taken out. */
  function Removed(s: seq<Pid>, x: Pid): (r: seq<Pid>)
    ensures forall p :: p in r <==> p in s && p != x
  {
    if s == [] then []
    else if s[0] == x then Removed(s[1..], x)
    else [s[0]] + Removed(s[1..], x)
  }

  /** SYS_WAIT: reap the first exited candidate; -EAGAIN while all of them live. */
  function SysWait(k: Kernel, caller: Pid, want: Pid): (Kernel, WaitResult)
    requires caller in k.procs
  {
    var candidates := Candidates(k, caller, want);
    if candidates == [] then (k, NoChild) else
    var exited := FirstExited(k.procs, candidates);
    if exited.None? then (k, Again) else
    var c := exited.value;
    var parent := k.procs[caller];
    (k.(procs := k.procs[caller := parent.(children := Removed(parent.children, c))]),
     Reaped(c, k.procs[c].exit.value))
  }

  /** kernel_record_exit: 0, or -ESRCH (here false) when the pid is unknown. */
  function RecordExit(k: Kernel, pid: Pid, status: int): (Kernel, bool) {
    if pid !in k.procs then (k, false)
    else (k.(procs := k.procs[pid := k.procs[pid].(exit := Some(status))]), true)
  }

  // ---- What a caller can rely on ----

  lemma {:induction false} FirstExitedIsFirst(procs: map<Pid, Process>, candidates: seq<Pid>) returns (i: nat)
    requires FirstExited(procs, candidates).Some?
    ensures i < |candidates| && candidates[i] == FirstExited(procs, candidates).value
    ensures forall j :: 0 <= j < i && candidates[j] in procs ==> procs[candidates[j]].exit.None?
  {
    if candidates[0] in procs && procs[candidates[0]].exit.Some? {
      i := 0;
    } else {
      var k := FirstExitedIsFirst(procs, candidates[1..]);
      i := k + 1;
      assert forall j :: 0 < j < i ==> candidates[j] == candidates[1..][j - 1];
    }
  }

  /**
   * A wait for any child reaps the first of them that has exited; a wait for one
   * child reaps that one, if it has. It fails with ECHILD exactly when there is no
   * such child and with EAGAIN exactly when none of them has exited.
   */
  lemma WaitAnswers(k: Kernel, caller: Pid, want: Pid)
    requires caller in k.procs
    ensures var mine := k.procs[caller].children; var r := SysWait(k, caller, want).1;
            && (r.NoChild? <==> if want == 0 then mine == [] else want !in mine)
            && (want != 0 && want in mine && want in k.procs && k.procs[want].exit.Some? ==>
                  r == Reaped(want, k.procs[want].exit.value))
            && (want == 0 && (exists c :: c in mine && c in k.procs && k.procs[c].exit.Some?) ==> r.Reaped?)
            && (r.Reaped? ==>
                  && r.pid in mine && (want == 0 || r.pid == want)
                  && r.pid in k.procs && k.procs[r.pid].exit == Some(r.status)
                  && (want == 0 ==>
                        exists i :: 0 <= i < |mine| && mine[i] == r.pid &&
                          forall j :: 0 <= j < i && mine[j] in k.procs ==> k.procs[mine[j]].exit.None?))
            && (r.Again? <==> !r.NoChild? && !r.Reaped?) && (!r.Reaped? ==> SysWait(k, caller, want).0 == k)
  {
    var mine := k.procs[caller].children;
    if want != 0 && want in mine { assert want in [want]; }
    if want == 0 && FirstExited(k.procs, mine).Some? {
      var i := FirstExitedIsFirst(k.procs, mine);
    }
  }

  /** Reaping takes the child off its parent's list and changes nothing else. */
  lemma ReapTakesOne(k: Kernel, caller: Pid, want: Pid, before: seq<Pid>, c: Pid, after: seq<Pid>)
    requires caller in k.procs && k.procs[caller].children == before + [c] + after && c !in before && c !in after
    requires SysWait(k, caller, want).1.Reaped? && SysWait(k, caller, want).1.pid == c
    ensures SysWait(k, caller, want).0 ==
            k.(procs := k.procs[caller := k.procs[caller].(children := before + after)])
  {
    RemovedOnce(before, c, after);
  }

  lemma {:induction false} RemovedOnce(before: seq<Pid>, c: Pid, after: seq<Pid>)
    requires c !in before && c !in after
    ensures Removed(before + [c] + after, c) == before + after
  {
    var s := before + [c] + after;
    if before == [] {
      assert s[1..] == after && before + after == after;
      RemovedNone(after, c);
    } else {
      assert s[1..] == before[1..] + [c] + after;
      RemovedOnce(before[1..], c, after);
      assert before + after == [before[0]] + (before[1..] + after);
    }
  }

  lemma {:induction false} RemovedNone(s: seq<Pid>, c: Pid)
    requires c !in s
    ensures Removed(s, c) == s
  {
    if s == [] {
    } else {
      RemovedNone(s[1..], c);
    }
  }

  /** The pid after `p` is the lowest free one above it, or, where all of those are taken, the lowest of all. */
  lemma NextPid(k: Kernel, caller: Pid, image: Guest, q: Pid)
    requires caller in k.procs && SysSpawn(k, caller, image).1.Some?
    ensures var (k', p) := SysSpawn(k, caller, image); var next := AllocSpawnPid(k');
            FIRST_SPAWN_PID <= q < PID_LIMIT && q !in k'.procs ==>
              && next.Some?
              && (q > p.value ==> p.value < next.value <= q)
              && (next.value < p.value ==> next.value <= q)
  {
    hide FirstFree;
    var (k', p) := SysSpawn(k, caller, image);
    if q !in k'.procs {
      FirstFreeIsLow(k'.procs, CursorAfter(p.value), PID_LIMIT, q);
      FirstFreeIsLow(k'.procs, FIRST_SPAWN_PID, CursorAfter(p.value), q);
    }
  }

  lemma {:induction false} FirstFreeIsLow(procs: map<Pid, Process>, from: Pid, end: Pid, q: Pid)
    requires q !in procs
    ensures from <= q < end ==> FirstFree(procs, from, end).Some? && FirstFree(procs, from, end).value <= q
    decreases end - from
  {
    if from >= end || from !in procs {
    } else {
      FirstFreeIsLow(procs, from + 1, end, q);
    }
  }
}
