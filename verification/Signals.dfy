/**
 * Signal delivery in the guest's C library: a mask over eight compact slots, a
 * pending word, a re-entrancy flag, and handlers that may raise, change the
 * mask, suspend or wait in turn.
 */
module Signals {
  import opened Wrappers

  const NSIG := 32

  const SIG_BLOCK := 0
  const SIG_UNBLOCK := 1
  const SIG_SETMASK := 2

  /** SIG_DFL (which is also NULL), SIG_IGN, SIG_ERR, or a guest function. */
  datatype Handler = Dfl | Ign | Err | Fn(id: nat)

  type SlotSet = set<int>

  /** The process-wide variables of the signal layer. */
  datatype Globals = Globals(mask: SlotSet, pending: set<int>, delivering: bool, actions: map<int, Handler>)

  predicate Valid(sig: int) { 0 < sig < NSIG }

  /** yurt_signal_compact_slot: eight slots, the last one shared by three signals. */
  function Slot(sig: int): Option<int> {
    match sig
    case 1 => Some(0)    // SIGHUP
    case 2 => Some(1)    // SIGINT
    case 3 => Some(2)    // SIGQUIT
    case 15 => Some(3)   // SIGTERM
    case 17 => Some(4)   // SIGCHLD
    case 28 => Some(5)   // SIGWINCH
    case 13 => Some(6)   // SIGPIPE
    case 10 => Some(7)   // SIGUSR1
    case 12 => Some(7)   // SIGUSR2
    case 14 => Some(7)   // SIGALRM
    case _ => None
  }

  predicate Terminates(sig: int) {
    sig in {1, 2, 3, 4, 5, 6, 7, 8, 9, 10, 11, 12, 13, 14, 15, 24, 25, 26, 29, 30, 31}
  }

  predicate Blocked(mask: SlotSet, sig: int) {
    Slot(sig).Some? && Slot(sig).value in mask
  }

  function Action(g: Globals, sig: int): Handler {
    if sig in g.actions then g.actions[sig] else Dfl
  }

  // ---- What one call does to the variables ----

  /** Outcome of yurt_raise_now before any handler runs. */
  datatype Raise = Invalid | Pended | Coalesced | Consumed | Call(id: nat) | Terminate(status: int)

  function Raising(g: Globals, sig: int, forwarded: bool): (Globals, Raise) {
    if !Valid(sig) then (g, Invalid)
    else if Blocked(g.mask, sig) then
      (g.(pending := g.pending + {sig}), if sig in g.pending then Coalesced else Pended)
    else if forwarded then (g, Consumed)
    else match Action(g, sig)
      case Ign => (g, Consumed)
      case Fn(id) => (g, Call(id))
      case _ => (g, if Terminates(sig) then Terminate(128 + sig) else Consumed)
  }

  predicate Deliverable(g: Globals, sig: int) {
    Valid(sig) && sig in g.pending && !Blocked(g.mask, sig)
  }

  /** The signal the scan of the delivery loop stops at. */
  function FirstDeliverable(g: Globals, from: int): (r: Option<int>)
    requires 1 <= from <= NSIG
    ensures r.Some? ==> from <= r.value && Deliverable(g, r.value)
                        && forall s :: from <= s < r.value ==> !Deliverable(g, s)
    ensures r.None? ==> forall s :: from <= s ==> !Deliverable(g, s)
    decreases NSIG - from
  {
    if from == NSIG then None
    else if Deliverable(g, from) then Some(from)
    else FirstDeliverable(g, from + 1)
  }

  predicate Receivable(g: Globals, wanted: SlotSet, sig: int) {
    Valid(sig) && sig in g.pending && Blocked(wanted, sig)
  }

  function FirstReceivable(g: Globals, wanted: SlotSet, from: int): (r: Option<int>)
    requires 1 <= from <= NSIG
    ensures r.Some? ==> from <= r.value && Receivable(g, wanted, r.value)
                        && forall s :: from <= s < r.value ==> !Receivable(g, wanted, s)
    ensures r.None? ==> forall s :: from <= s ==> !Receivable(g, wanted, s)
    decreases NSIG - from
  {
    if from == NSIG then None
    else if Receivable(g, wanted, from) then Some(from)
    else FirstReceivable(g, wanted, from + 1)
  }

  function NewMask(mask: SlotSet, how: int, set_: SlotSet): Option<SlotSet> {
    if how == SIG_BLOCK then Some(mask + set_)
    else if how == SIG_UNBLOCK then Some(mask - set_)
    else if how == SIG_SETMASK then Some(set_)
    else None
  }

  // ---- The machine ----

  datatype Phase = First | Yielding | Second

  /** The call stack, as far as the signal layer is on it. */
  datatype Frame =
    | Main                                   // the program
    | InHandler(sig: int)                    // a handler called by yurt_raise_now
    | Delivering                             // the delivery loop
    | Suspend(saved: SlotSet, phase: Phase)  // sigsuspend
    | TimedWait                              // sigtimedwait, yielding

  datatype State = Running(g: Globals, frames: seq<Frame>) | Exited(status: int, g: Globals)

  datatype Event = Raised(sig: int) | CoalescedRaise(sig: int) | Dispatched(sig: int) | Received(sig: int)

  /**
   * One step. The program and handlers may make any call at any time; the host
   * may raise a signal while the guest yields; `forwarded` is the answer of the
   * weak exec-child hook.
   */
  datatype Step =
    | GuestRaise(sig: int, forwarded: bool)
    | HostRaise(sig: int, forwarded: bool)
    | ProcMask(how: int, set_: Option<SlotSet>)
    | SigSuspend(newMask: Option<SlotSet>)
    | SigTimedWait(wanted: SlotSet)
    | SetAction(sig: int, handler: Handler)
    | HandlerReturn
    | YieldReturn
    | LoopTurn(forwarded: bool)

  function Top(frames: seq<Frame>): Frame
    requires frames != []
  {
    frames[|frames| - 1]
  }

  function Pop(frames: seq<Frame>): seq<Frame>
    requires frames != []
  {
    frames[..|frames| - 1]
  }

  predicate GuestRuns(frames: seq<Frame>) {
    frames != [] && (Top(frames).Main? || Top(frames).InHandler?)
  }

  predicate HostRuns(frames: seq<Frame>) {
    frames != [] && (Top(frames).TimedWait? || (Top(frames).Suspend? && Top(frames).phase.Yielding?))
  }

  /** Where a finished delivery returns to. */
  function AfterDelivery(g: Globals, frames: seq<Frame>): State {
    if frames != [] && Top(frames).Suspend? then
      match Top(frames).phase
      case First => Running(g, Pop(frames) + [Suspend(Top(frames).saved, Yielding)])
      case Second => Running(g, Pop(frames))
      case Yielding => Running(g, frames)
    else Running(g, frames)
  }

  /** yurt_signal_deliver_pending up to its first scan; a nested call returns at once. */
  function BeginDelivery(g: Globals, frames: seq<Frame>): State {
    if g.delivering then AfterDelivery(g, frames)
    else Running(g.(delivering := true), frames + [Delivering])
  }

  function RaiseEvents(sig: int, r: Raise): seq<Event> {
    match r
    case Invalid => []
    case Pended => []
    case Coalesced => [CoalescedRaise(sig)]
    case _ => [Dispatched(sig)]
  }

  function DoRaise(g: Globals, frames: seq<Frame>, sig: int, forwarded: bool): (State, seq<Event>) {
    var (g', r) := Raising(g, sig, forwarded);
    (match r
     case Call(_) => Running(g', frames + [InHandler(sig)])
     case Terminate(status) => Exited(status, g')
     case _ => Running(g', frames),
     RaiseEvents(sig, r))
  }

  function Turn(g: Globals, frames: seq<Frame>, forwarded: bool): (State, seq<Event>)
    requires frames != []
  {
    var next := FirstDeliverable(g, 1);
    if next.Some? then DoRaise(g.(pending := g.pending - {next.value}), frames, next.value, forwarded)
    else (AfterDelivery(g.(delivering := false), Pop(frames)), [])
  }

  /** The step relation as a partial function: None when the step is not enabled. */
  function Next(st: State, step: Step): Option<(State, seq<Event>)> {
    if st.Exited? then None else
    var g, frames := st.g, st.frames;
    match step
    case GuestRaise(sig, fwd) =>
      if !GuestRuns(frames) then None else
      var (st', ev) := DoRaise(g, frames, sig, fwd);
      Some((st', (if Valid(sig) then [Raised(sig)] else []) + ev))
    case HostRaise(sig, fwd) =>
      if !HostRuns(frames) then None else
      var (st', ev) := DoRaise(g, frames, sig, fwd);
      Some((st', (if Valid(sig) then [Raised(sig)] else []) + ev))
    case ProcMask(how, set_) =>
      if !GuestRuns(frames) then None else
      if set_.None? || NewMask(g.mask, how, set_.value).None? then Some((st, []))
      else Some((BeginDelivery(g.(mask := NewMask(g.mask, how, set_.value).value), frames), []))
    case SigSuspend(newMask) =>
      if !GuestRuns(frames) then None else
      var g' := if newMask.Some? then g.(mask := newMask.value) else g;
      Some((BeginDelivery(g', frames + [Suspend(g.mask, First)]), []))
    case SigTimedWait(wanted) =>
      if !GuestRuns(frames) then None else
      var found := FirstReceivable(g, wanted, 1);
      if found.Some? then
        Some((Running(g.(pending := g.pending - {found.value}), frames), [Received(found.value)]))
      else Some((Running(g, frames + [TimedWait]), []))
    case SetAction(sig, handler) =>
      if !GuestRuns(frames) then None else
      if !Valid(sig) then Some((st, [])) else
      Some((Running(g.(actions := g.actions[sig := handler]), frames), []))
    case HandlerReturn =>
      if frames == [] || !Top(frames).InHandler? then None
      else Some((Running(g, Pop(frames)), []))
    case YieldReturn =>
      if !HostRuns(frames) then None
      else if Top(frames).TimedWait? then Some((Running(g, Pop(frames)), []))
      else
        var saved := Top(frames).saved;
        Some((BeginDelivery(g.(mask := saved), Pop(frames) + [Suspend(saved, Second)]), []))
    case LoopTurn(fwd) =>
      if frames == [] || !Top(frames).Delivering? then None
      else Some(Turn(g, frames, fwd))
  }

  const Start: State := Running(Globals({}, {}, false, map[]), [Main])

  /** The state and the events after a run from `st`, or None when some step was not enabled. */
  function Run(st: State, steps: seq<Step>): Option<(State, seq<Event>)>
    decreases |steps|
  {
    if steps == [] then Some((st, [])) else
    var first := Next(st, steps[0]);
    if first.None? then None else
    var rest := Run(first.value.0, steps[1..]);
    if rest.None? then None
    else Some((rest.value.0, first.value.1 + rest.value.1))
  }

  // ---- Invariant ----

  function Loops(frames: seq<Frame>): nat {
    if frames == [] then 0
    else Loops(Pop(frames)) + (if Top(frames).Delivering? then 1 else 0)
  }

  /** A frame may be on top, or may have that frame called from it. */
  predicate MayTop(f: Frame) {
    f.Suspend? ==> f.phase.Yielding?
  }

  predicate MayCall(below: Frame, above: Frame) {
    match below
    case Main => !above.Main?
    case InHandler(_) => !above.Main?
    case Delivering => above.InHandler?
    case TimedWait => above.InHandler?
    case Suspend(_, phase) => if phase.Yielding? then above.InHandler? else above.Delivering?
  }

  predicate Chain(frames: seq<Frame>) {
    && frames != [] && frames[0] == Main
    && forall i :: 0 <= i < |frames| - 1 ==> MayCall(frames[i], frames[i + 1])
  }

  predicate StackOk(frames: seq<Frame>) {
    Chain(frames) && MayTop(Top(frames))
  }

  predicate HeldBack(g: Globals) {
    forall sig :: sig in g.pending ==> Blocked(g.mask, sig)
  }

  predicate SlotsOk(g: Globals) {
    forall sig :: sig in g.pending ==> Valid(sig) && Slot(sig).Some?
  }

  /** The flag says exactly whether the loop is on the stack; without it nothing deliverable waits. */
  predicate LoopOk(g: Globals, frames: seq<Frame>) {
    && Loops(frames) == (if g.delivering then 1 else 0)
    && (!g.delivering ==> HeldBack(g))
  }

  predicate Inv(st: State) {
    SlotsOk(st.g) && (st.Running? ==> StackOk(st.frames) && LoopOk(st.g, st.frames))
  }

  // ---- Every step keeps the invariant ----

  lemma PushKeeps(frames: seq<Frame>, f: Frame)
    requires Chain(frames) && MayCall(Top(frames), f)
    ensures Chain(frames + [f]) && Top(frames + [f]) == f && Pop(frames + [f]) == frames
    ensures Loops(frames + [f]) == Loops(frames) + (if f.Delivering? then 1 else 0)
  {
    assert Pop(frames + [f]) == frames;
  }

  lemma PopKeeps(frames: seq<Frame>)
    requires Chain(frames) && !Top(frames).Main?
    ensures Chain(Pop(frames)) && MayCall(Top(Pop(frames)), Top(frames))
    ensures Loops(frames) == Loops(Pop(frames)) + (if Top(frames).Delivering? then 1 else 0)
  {
    assert |frames| > 1;
    assert MayCall(frames[|frames| - 2], frames[|frames| - 1]);
  }

  predicate Returnable(frames: seq<Frame>) {
    Chain(frames) && (GuestRuns(frames) || (Top(frames).Suspend? && !Top(frames).phase.Yielding?))
  }

  lemma AfterDeliveryKeepsInv(g: Globals, frames: seq<Frame>)
    requires SlotsOk(g) && Returnable(frames) && LoopOk(g, frames)
    ensures Inv(AfterDelivery(g, frames))
  {
    if Top(frames).Suspend? {
      PopKeeps(frames);
      if Top(frames).phase.First? {
        PushKeeps(Pop(frames), Suspend(Top(frames).saved, Yielding));
      }
    }
  }

  lemma BeginDeliveryKeepsInv(g: Globals, frames: seq<Frame>)
    requires SlotsOk(g) && Returnable(frames)
    requires Loops(frames) == (if g.delivering then 1 else 0)
    ensures Inv(BeginDelivery(g, frames))
  {
    if g.delivering {
      AfterDeliveryKeepsInv(g, frames);
    } else {
      PushKeeps(frames, Delivering);
    }
  }

  lemma DoRaiseKeepsInv(g: Globals, frames: seq<Frame>, sig: int, forwarded: bool)
    requires SlotsOk(g) && StackOk(frames) && LoopOk(g, frames)
    ensures Inv(DoRaise(g, frames, sig, forwarded).0)
  {
    PushKeeps(frames, InHandler(sig));
  }

  lemma TurnKeepsInv(g: Globals, frames: seq<Frame>, forwarded: bool)
    requires SlotsOk(g) && StackOk(frames) && LoopOk(g, frames) && Top(frames).Delivering?
    ensures Inv(Turn(g, frames, forwarded).0)
  {
    PopKeeps(frames);
    var next := FirstDeliverable(g, 1);
    if next.Some? {
      DoRaiseKeepsInv(g.(pending := g.pending - {next.value}), frames, next.value, forwarded);
    } else {
      forall sig | sig in g.pending ensures Blocked(g.mask, sig) {
        assert !Deliverable(g, sig);
      }
      AfterDeliveryKeepsInv(g.(delivering := false), Pop(frames));
    }
  }

  lemma StepKeepsInv(st: State, step: Step)
    requires Inv(st) && Next(st, step).Some?
    ensures Inv(Next(st, step).value.0)
  {
    var g, frames := st.g, st.frames;
    match step
    case GuestRaise(sig, fwd) => DoRaiseKeepsInv(g, frames, sig, fwd);
    case HostRaise(sig, fwd) => DoRaiseKeepsInv(g, frames, sig, fwd);
    case ProcMask(how, set_) =>
      if set_.Some? && NewMask(g.mask, how, set_.value).Some? {
        BeginDeliveryKeepsInv(g.(mask := NewMask(g.mask, how, set_.value).value), frames);
      }
    case SigSuspend(newMask) =>
      PushKeeps(frames, Suspend(g.mask, First));
      BeginDeliveryKeepsInv(if newMask.Some? then g.(mask := newMask.value) else g,
                            frames + [Suspend(g.mask, First)]);
    case SigTimedWait(wanted) => PushKeeps(frames, TimedWait);
    case SetAction(_, _) =>
    case HandlerReturn => PopKeeps(frames);
    case YieldReturn =>
      PopKeeps(frames);
      if Top(frames).Suspend? {
        PushKeeps(Pop(frames), Suspend(Top(frames).saved, Second));
        BeginDeliveryKeepsInv(g.(mask := Top(frames).saved), Pop(frames) + [Suspend(Top(frames).saved, Second)]);
      }
    case LoopTurn(fwd) => TurnKeepsInv(g, frames, fwd);
  }

  /** Every state reachable from a good one, in particular from `Start`, is good. */
  lemma {:induction false} ReachableInv(st: State, steps: seq<Step>)
    requires Inv(st) && Run(st, steps).Some?
    ensures Inv(Run(st, steps).value.0)
    decreases |steps|
  {
    hide Next, Inv;
    if steps == [] {
    } else {
      StepKeepsInv(st, steps[0]);
      ReachableInv(Next(st, steps[0]).value.0, steps[1..]);
    }
  }

  // ---- No signal is lost or invented ----

  function Count(events: seq<Event>, e: Event): nat {
    multiset(events)[e]
  }

  function PendingBit(st: State, sig: int): nat {
    if sig in st.g.pending then 1 else 0
  }

  /** The books of one signal balance between two states: what came in went out or is still pending. */
  ghost predicate Balanced(before: State, events: seq<Event>, after: State, sig: int) {
    Count(events, Raised(sig)) + PendingBit(before, sig)
    == Count(events, Dispatched(sig)) + Count(events, Received(sig)) + Count(events, CoalescedRaise(sig))
       + PendingBit(after, sig)
  }

  /** An unblocked signal is dispatched at once. */
  lemma UnblockedRaise(g: Globals, frames: seq<Frame>, s: int, forwarded: bool)
    requires Valid(s) && !Blocked(g.mask, s)
    ensures DoRaise(g, frames, s, forwarded).1 == [Dispatched(s)]
    ensures DoRaise(g, frames, s, forwarded).0.g == g
  {
  }

  lemma BlockedRaise(g: Globals, frames: seq<Frame>, s: int, forwarded: bool)
    requires Valid(s) && Blocked(g.mask, s)
    ensures DoRaise(g, frames, s, forwarded).1 == if s in g.pending then [CoalescedRaise(s)] else []
    ensures DoRaise(g, frames, s, forwarded).0.g == g.(pending := g.pending + {s})
  {
  }

  /** A raise is dispatched, becomes pending, or is merged into one that already is. */
  lemma RaiseBalances(g: Globals, frames: seq<Frame>, s: int, forwarded: bool, sig: int)
    ensures var (st', ev) := DoRaise(g, frames, s, forwarded);
            Balanced(Running(g, frames), (if Valid(s) then [Raised(s)] else []) + ev, st', sig)
  {
    var ev := (if Valid(s) then [Raised(s)] else []) + DoRaise(g, frames, s, forwarded).1;
    if !Valid(s) {
      assert ev == [];
    } else if !Blocked(g.mask, s) {
      UnblockedRaise(g, frames, s, forwarded);
      hide DoRaise;
      assert ev == [Raised(s), Dispatched(s)];
    } else {
      BlockedRaise(g, frames, s, forwarded);
      hide DoRaise;
      assert ev == if s in g.pending then [Raised(s), CoalescedRaise(s)] else [Raised(s)];
    }
  }

  lemma TurnBalances(g: Globals, frames: seq<Frame>, forwarded: bool, sig: int)
    requires frames != []
    ensures var (st', ev) := Turn(g, frames, forwarded);
            Balanced(Running(g, frames), ev, st', sig)
  {
    var next := FirstDeliverable(g, 1);
    if next.Some? {
      UnblockedRaise(g.(pending := g.pending - {next.value}), frames, next.value, forwarded);
      hide DoRaise;
      assert Turn(g, frames, forwarded).1 == [Dispatched(next.value)];
    }
  }

  lemma NoTraffic(st: State, step: Step)
    requires Next(st, step).Some?
    requires !step.GuestRaise? && !step.HostRaise? && !step.LoopTurn? && !step.SigTimedWait?
    ensures Next(st, step).value.1 == [] && Next(st, step).value.0.g.pending == st.g.pending
  {
  }

  lemma NothingBalances(st: State, st': State, sig: int)
    requires st'.g.pending == st.g.pending
    ensures Balanced(st, [], st', sig)
  {
  }

  lemma ReceiptBalances(st: State, st': State, s: int, sig: int)
    requires s in st.g.pending && st'.g.pending == st.g.pending - {s}
    ensures Balanced(st, [Received(s)], st', sig)
  {
  }

  lemma StepBalances(st: State, step: Step, sig: int)
    requires Next(st, step).Some?
    ensures var (st', ev) := Next(st, step).value; Balanced(st, ev, st', sig)
  {
    hide Balanced, DoRaise, Turn, BeginDelivery, NewMask;
    var (st', ev) := Next(st, step).value;
    match step
    case GuestRaise(s, fwd) => RaiseBalances(st.g, st.frames, s, fwd, sig);
    case HostRaise(s, fwd) => RaiseBalances(st.g, st.frames, s, fwd, sig);
    case LoopTurn(fwd) => TurnBalances(st.g, st.frames, fwd, sig);
    case SigTimedWait(wanted) =>
      var found := FirstReceivable(st.g, wanted, 1);
      if found.Some? { ReceiptBalances(st, st', found.value, sig); } else { NothingBalances(st, st', sig); }
    case _ =>
      NoTraffic(st, step);
      NothingBalances(st, st', sig);
  }

  /** A pending bit goes only by a dispatch or a receipt of that signal. */
  lemma PendingClearedOnlyByDelivery(st: State, step: Step, sig: int)
    requires Inv(st) && Next(st, step).Some? && sig in st.g.pending && sig !in Next(st, step).value.0.g.pending
    ensures Next(st, step).value.1 in {[Dispatched(sig)], [Received(sig)]}
  {
  }

  lemma {:induction false} Conservation(st: State, steps: seq<Step>, sig: int)
    requires Run(st, steps).Some?
    ensures Balanced(st, Run(st, steps).value.1, Run(st, steps).value.0, sig)
    decreases |steps|
  {
    hide Next;
    if steps == [] {
    } else {
      StepBalances(st, steps[0], sig);
      Conservation(Next(st, steps[0]).value.0, steps[1..], sig);
    }
  }

  // ---- The mask the program gets back ----

  /** The mask once every call on the stack has returned: an open sigsuspend puts its own back. */
  function Unwound(mask: SlotSet, frames: seq<Frame>): SlotSet
    decreases |frames|
  {
    if frames == [] then mask
    else if Top(frames).Suspend? && !Top(frames).phase.Second? then Unwound(Top(frames).saved, Pop(frames))
    else Unwound(mask, Pop(frames))
  }

  predicate Suspended(frames: seq<Frame>) {
    exists i :: 0 <= i < |frames| && frames[i].Suspend? && !frames[i].phase.Second?
  }

  /** The mask as the calls of sigprocmask outside any open sigsuspend make it. */
  function AskedMask(st: State, steps: seq<Step>, mask: SlotSet): SlotSet
    requires Run(st, steps).Some?
    decreases |steps|
  {
    if steps == [] then mask else
    var mask' :=
      if steps[0].ProcMask? && steps[0].set_.Some? && !Suspended(st.frames) then
        var m := NewMask(mask, steps[0].how, steps[0].set_.value);
        if m.Some? then m.value else mask
      else mask;
    AskedMask(Next(st, steps[0]).value.0, steps[1..], mask')
  }

  lemma UnwoundPush(mask: SlotSet, frames: seq<Frame>, f: Frame)
    ensures Unwound(mask, frames + [f]) ==
            Unwound(if f.Suspend? && !f.phase.Second? then f.saved else mask, frames)
  {
    assert Pop(frames + [f]) == frames;
  }

  lemma UnwoundHidesMask(mask: SlotSet, mask': SlotSet, frames: seq<Frame>)
    ensures Suspended(frames) ==> Unwound(mask, frames) == Unwound(mask', frames)
    ensures !Suspended(frames) ==> Unwound(mask, frames) == mask
  {
    if frames == [] {
    } else {
      var below := Pop(frames);
      assert frames == below + [Top(frames)];
      UnwoundHidesMask(mask, mask', below);
      if Suspended(below) {
        var i :| 0 <= i < |below| && below[i].Suspend? && !below[i].phase.Second?;
        assert frames[i] == below[i];
      }
      if Suspended(frames) {
        var i :| 0 <= i < |frames| && frames[i].Suspend? && !frames[i].phase.Second?;
        if i < |below| { assert frames[i] == below[i]; }
      }
    }
  }

  lemma BeginDeliveryUnwound(g: Globals, frames: seq<Frame>)
    requires frames != []
    ensures var st := BeginDelivery(g, frames); Unwound(st.g.mask, st.frames) == Unwound(g.mask, frames)
  {
    UnwoundPush(g.mask, frames, Delivering);
    AfterDeliveryUnwound(g, frames);
  }

  lemma AfterDeliveryUnwound(g: Globals, frames: seq<Frame>)
    ensures var st := AfterDelivery(g, frames); Unwound(st.g.mask, st.frames) == Unwound(g.mask, frames)
  {
    if frames != [] && Top(frames).Suspend? {
      UnwoundPush(g.mask, Pop(frames), Suspend(Top(frames).saved, Yielding));
    }
  }

  /** Only a sigprocmask outside every open sigsuspend changes the mask that is returned to. */
  lemma StepUnwound(st: State, step: Step)
    requires st.Running? && st.frames != [] && Next(st, step).Some? && Next(st, step).value.0.Running?
    ensures var st' := Next(st, step).value.0;
            Unwound(st'.g.mask, st'.frames) ==
            if step.ProcMask? && step.set_.Some? && !Suspended(st.frames)
               && NewMask(st.g.mask, step.how, step.set_.value).Some?
            then NewMask(st.g.mask, step.how, step.set_.value).value
            else Unwound(st.g.mask, st.frames)
  {
    hide Suspended, DoRaise, FirstDeliverable, FirstReceivable, BeginDelivery, AfterDelivery, NewMask;
    var g, frames := st.g, st.frames;
    match step
    case GuestRaise(sig, fwd) => RaiseUnwound(g, frames, sig, fwd);
    case HostRaise(sig, fwd) => RaiseUnwound(g, frames, sig, fwd);
    case ProcMask(how, set_) =>
      if set_.Some? && NewMask(g.mask, how, set_.value).Some? {
        var m := NewMask(g.mask, how, set_.value).value;
        BeginDeliveryUnwound(g.(mask := m), frames);
        UnwoundHidesMask(m, g.mask, frames);
      } else {
        UnwoundHidesMask(g.mask, g.mask, frames);
      }
    case SigSuspend(newMask) =>
      var g' := if newMask.Some? then g.(mask := newMask.value) else g;
      UnwoundPush(g'.mask, frames, Suspend(g.mask, First));
      BeginDeliveryUnwound(g', frames + [Suspend(g.mask, First)]);
    case SigTimedWait(_) => UnwoundPush(g.mask, frames, TimedWait);
    case SetAction(_, _) =>
    case HandlerReturn =>
    case YieldReturn =>
      if Top(frames).Suspend? {
        var saved := Top(frames).saved;
        UnwoundPush(saved, Pop(frames), Suspend(saved, Second));
        BeginDeliveryUnwound(g.(mask := saved), Pop(frames) + [Suspend(saved, Second)]);
      }
    case LoopTurn(fwd) =>
      var next := FirstDeliverable(g, 1);
      if next.Some? {
        RaiseUnwound(g.(pending := g.pending - {next.value}), frames, next.value, fwd);
      } else {
        AfterDeliveryUnwound(g.(delivering := false), Pop(frames));
      }
  }

  lemma RaiseUnwound(g: Globals, frames: seq<Frame>, sig: int, forwarded: bool)
    ensures var st := DoRaise(g, frames, sig, forwarded).0;
            st.Running? ==> Unwound(st.g.mask, st.frames) == Unwound(g.mask, frames)
  {
    hide Unwound, Terminates, Blocked, Action;
    UnwoundPush(g.mask, frames, InHandler(sig));
  }

  lemma ExitedIsFinal(st: State, steps: seq<Step>)
    ensures st.Exited? && Run(st, steps).Some? ==> Run(st, steps).value.0 == st
  {
  }

  /** However sigsuspend nests through handlers, the program's mask is the one it asked for. */
  lemma {:induction false} MaskIsTheOneAskedFor(st: State, steps: seq<Step>)
    requires Inv(st) && st.Running? && Run(st, steps).Some? && Run(st, steps).value.0.Running?
    ensures var st' := Run(st, steps).value.0;
            Unwound(st'.g.mask, st'.frames) == AskedMask(st, steps, Unwound(st.g.mask, st.frames))
    decreases |steps|
  {
    if steps == [] {
    } else {
      var st1 := Next(st, steps[0]).value.0;
      ExitedIsFinal(st1, steps[1..]);
      StepKeepsInv(st, steps[0]);
      StepUnwound(st, steps[0]);
      UnwoundHidesMask(st.g.mask, st.g.mask, st.frames);
      MaskIsTheOneAskedFor(st1, steps[1..]);
    }
  }

  // ---- Handlers that leave the signal layer alone ----

  /** The deliverable signals from `from` up, in the order the loop takes them. */
  function Ascending(g: Globals, from: int): seq<int>
    requires 1 <= from <= NSIG
    decreases NSIG - from
  {
    if from == NSIG then []
    else (if Deliverable(g, from) then [from] else []) + Ascending(g, from + 1)
  }

  function Dispatches(sigs: seq<int>): seq<Event> {
    seq(|sigs|, i requires 0 <= i < |sigs| => Dispatched(sigs[i]))
  }

  predicate Survives(g: Globals, sig: int) {
    match Action(g, sig)
    case Ign => true
    case Fn(_) => true
    case _ => !Terminates(sig)
  }

  /** The delivery loop when each handler it calls returns at once. */
  function QuietLoop(g: Globals, sigs: seq<int>): seq<Step> {
    if sigs == [] then [LoopTurn(false)] else QuietStep(g, sigs[0]) + QuietLoop(g, sigs[1..])
  }

  function QuietStep(g: Globals, sig: int): seq<Step> {
    if Action(g, sig).Fn? then [LoopTurn(false), HandlerReturn] else [LoopTurn(false)]
  }

  lemma AscendingStart(g: Globals, from: int)
    requires 1 <= from <= NSIG
    ensures FirstDeliverable(g, from) == if Ascending(g, from) == [] then None else Some(Ascending(g, from)[0])
    decreases NSIG - from
  {
    if from >= NSIG {
    } else {
      AscendingStart(g, from + 1);
    }
  }

  lemma AscendingCleared(g: Globals, sig: int, from: int)
    requires 1 <= from <= NSIG
    ensures from <= sig && FirstDeliverable(g, from) == Some(sig) ==>
              Ascending(g, from) == [sig] + Ascending(g.(pending := g.pending - {sig}), from)
    ensures sig < from ==> Ascending(g, from) == Ascending(g.(pending := g.pending - {sig}), from)
    decreases NSIG - from
  {
    hide Deliverable;
    if from >= NSIG {
    } else {
      DeliverableCleared(g, sig, from);
      AscendingCleared(g, sig, from + 1);
      AscendingFrom(g, from);
      AscendingFrom(g.(pending := g.pending - {sig}), from);
    }
  }

  lemma AscendingFrom(g: Globals, from: int)
    requires 1 <= from < NSIG
    ensures Ascending(g, from) ==
            if Deliverable(g, from) then [from] + Ascending(g, from + 1) else Ascending(g, from + 1)
  {
    hide Deliverable;
    assert [] + Ascending(g, from + 1) == Ascending(g, from + 1);
  }

  lemma DeliverableCleared(g: Globals, sig: int, s: int)
    ensures Deliverable(g.(pending := g.pending - {sig}), s) <==> Deliverable(g, s) && s != sig
  {
  }

  lemma QuietTurn(g: Globals, frames: seq<Frame>, sig: int, rest: seq<Step>)
    requires frames != [] && Top(frames).Delivering? && FirstDeliverable(g, 1) == Some(sig) && Survives(g, sig)
    ensures var after := Run(Running(g.(pending := g.pending - {sig}), frames), rest);
            Run(Running(g, frames), QuietStep(g, sig) + rest) ==
            if after.None? then None else Some((after.value.0, [Dispatched(sig)] + after.value.1))
  {
    var g' := g.(pending := g.pending - {sig});
    var st := Running(g, frames);
    if Action(g, sig).Fn? {
      var mid := Running(g', frames + [InHandler(sig)]);
      assert Next(st, LoopTurn(false)) == Some((mid, [Dispatched(sig)]));
      assert Pop(mid.frames) == frames;
      assert Next(mid, HandlerReturn) == Some((Running(g', frames), []));
      hide Next;
      RunCons(st, LoopTurn(false), [HandlerReturn] + rest);
      RunCons(mid, HandlerReturn, rest);
      assert QuietStep(g, sig) + rest == [LoopTurn(false)] + ([HandlerReturn] + rest);
      var after := Run(Running(g', frames), rest);
      if after.Some? { assert [] + after.value.1 == after.value.1; }
    } else {
      assert Next(st, LoopTurn(false)) == Some((Running(g', frames), [Dispatched(sig)]));
      hide Next;
      RunCons(st, LoopTurn(false), rest);
    }
  }

  lemma RunCons(st: State, step: Step, rest: seq<Step>)
    ensures var first := Next(st, step);
            Run(st, [step] + rest) ==
            if first.None? || Run(first.value.0, rest).None? then None
            else Some((Run(first.value.0, rest).value.0, first.value.1 + Run(first.value.0, rest).value.1))
  {
    hide Next;
    assert ([step] + rest)[1..] == rest;
  }

  ghost function Kept(g: Globals): set<int> {
    set sig | sig in g.pending && !Deliverable(g, sig)
  }

  lemma QuietEnd(g: Globals, frames: seq<Frame>)
    requires frames != [] && Top(frames).Delivering? && Ascending(g, 1) == []
    ensures Run(Running(g, frames), QuietLoop(g, [])) ==
            Some((AfterDelivery(g.(pending := Kept(g), delivering := false), Pop(frames)), []))
  {
    AscendingStart(g, 1);
    assert Kept(g) == g.pending;
    var st, loop := Running(g, frames), LoopTurn(false);
    assert Next(st, loop) == Some((AfterDelivery(g.(delivering := false), Pop(frames)), []));
    hide Next;
    RunCons(st, loop, []);
    assert [loop] + [] == QuietLoop(g, []);
  }

  /**
   * A delivery whose handlers leave the signal layer alone dispatches every
   * deliverable signal once, lowest number first, and returns with exactly the
   * others pending.
   */
  lemma {:induction false} QuietDelivery(g: Globals, frames: seq<Frame>)
    requires frames != [] && Top(frames).Delivering?
    requires forall sig :: Deliverable(g, sig) ==> Survives(g, sig)
    ensures Run(Running(g, frames), QuietLoop(g, Ascending(g, 1))) ==
            Some((AfterDelivery(g.(pending := Kept(g), delivering := false), Pop(frames)),
                  Dispatches(Ascending(g, 1))))
    decreases |Ascending(g, 1)|
  {
    hide Run, Next, AfterDelivery, Deliverable, Survives, Kept, Ascending, Dispatches;
    var sigs := Ascending(g, 1);
    AscendingStart(g, 1);
    if sigs == [] {
      QuietEnd(g, frames);
      DispatchesOf(sigs);
    } else {
      var sig := sigs[0];
      var g' := g.(pending := g.pending - {sig});
      AscendingCleared(g, sig, 1);
      assert sigs[1..] == Ascending(g', 1);
      ClearedFacts(g, sig);
      QuietLoopActions(g, g', sigs[1..]);
      QuietDelivery(g', frames);
      QuietTurn(g, frames, sig, QuietLoop(g', sigs[1..]));
      DispatchesOf(sigs);
    }
  }

  lemma ClearedFacts(g: Globals, sig: int)
    requires Deliverable(g, sig)
    ensures var g' := g.(pending := g.pending - {sig});
            && Kept(g) == Kept(g')
            && (forall s :: Deliverable(g', s) ==> Deliverable(g, s))
            && (forall s :: Survives(g', s) <==> Survives(g, s))
  {
    var g' := g.(pending := g.pending - {sig});
    assert forall s :: Deliverable(g', s) <==> Deliverable(g, s) && s != sig;
    assert Kept(g) == Kept(g');
  }

  lemma DispatchesOf(sigs: seq<int>)
    ensures Dispatches(sigs) == if sigs == [] then [] else [Dispatched(sigs[0])] + Dispatches(sigs[1..])
  {
  }

  lemma QuietLoopActions(g: Globals, g': Globals, sigs: seq<int>)
    requires g.actions == g'.actions
    ensures QuietLoop(g, sigs) == QuietLoop(g', sigs)
  {
  }

  // ---- Handlers entered inside themselves ----

  /** How often the handler of `sig` is on the stack. */
  function Depth(frames: seq<Frame>, sig: int): nat {
    if frames == [] then 0
    else Depth(Pop(frames), sig) + (if Top(frames) == InHandler(sig) then 1 else 0)
  }

  lemma DepthPush(frames: seq<Frame>, f: Frame, sig: int)
    ensures Depth(frames + [f], sig) == Depth(frames, sig) + if f == InHandler(sig) then 1 else 0
  {
    assert Pop(frames + [f]) == frames;
  }

  lemma AfterDeliveryDepth(g: Globals, frames: seq<Frame>, sig: int)
    ensures Depth(AfterDelivery(g, frames).frames, sig) == Depth(frames, sig)
  {
    if frames != [] && Top(frames).Suspend? {
      DepthPush(Pop(frames), Suspend(Top(frames).saved, Yielding), sig);
    }
  }

  lemma BeginDeliveryDepth(g: Globals, frames: seq<Frame>, sig: int)
    ensures Depth(BeginDelivery(g, frames).frames, sig) == Depth(frames, sig)
  {
    AfterDeliveryDepth(g, frames, sig);
    DepthPush(frames, Delivering, sig);
  }

  /** A raise that would call the handler of `sig` if nothing holds it back. */
  predicate Calls(g: Globals, sig: int, forwarded: bool) {
    Valid(sig) && !Blocked(g.mask, sig) && !forwarded && Action(g, sig).Fn?
  }

  /** The step enters the handler of `sig`: by a raise of it, or by the loop when it is the next one due. */
  predicate Enters(st: State, step: Step, sig: int)
    requires st.Running?
  {
    match step
    case GuestRaise(s, fwd) => s == sig && Calls(st.g, sig, fwd)
    case HostRaise(s, fwd) => s == sig && Calls(st.g, sig, fwd)
    case LoopTurn(fwd) => FirstDeliverable(st.g, 1) == Some(sig) && Calls(st.g, sig, fwd)
    case _ => false
  }

  lemma RaiseDepth(g: Globals, frames: seq<Frame>, s: int, forwarded: bool, sig: int)
    ensures var st := DoRaise(g, frames, s, forwarded).0;
            if s == sig && Calls(g, sig, forwarded) then st.Running? && st.frames == frames + [InHandler(sig)]
            else st.Running? ==> Depth(st.frames, sig) == Depth(frames, sig)
  {
    DepthPush(frames, InHandler(s), sig);
  }

  /**
   * The handler of a signal is entered once more, inside itself or not, exactly
   * when the step raises the signal or the loop takes it, the mask does not hold
   * it, no exec child takes it and its action is a function. Whether the handler
   * already runs plays no part.
   */
  lemma EntersExactlyWhen(st: State, step: Step, sig: int)
    requires st.Running? && Next(st, step).Some?
    ensures var st' := Next(st, step).value.0;
            && (Enters(st, step, sig) <==> st'.Running? && Depth(st'.frames, sig) > Depth(st.frames, sig))
            && (Enters(st, step, sig) ==> st'.frames == st.frames + [InHandler(sig)])
  {
    hide Depth, Calls;
    var g, frames := st.g, st.frames;
    DepthPush(frames, InHandler(sig), sig);
    match step
    case GuestRaise(s, fwd) => RaiseDepth(g, frames, s, fwd, sig);
    case HostRaise(s, fwd) => RaiseDepth(g, frames, s, fwd, sig);
    case LoopTurn(fwd) => LoopTurnDepth(g, frames, fwd, sig);
    case ProcMask(how, set_) =>
      if set_.Some? && NewMask(g.mask, how, set_.value).Some? {
        BeginDeliveryDepth(g.(mask := NewMask(g.mask, how, set_.value).value), frames, sig);
      }
    case SigSuspend(newMask) =>
      DepthPush(frames, Suspend(g.mask, First), sig);
      BeginDeliveryDepth(if newMask.Some? then g.(mask := newMask.value) else g, frames + [Suspend(g.mask, First)],
          sig);
    case SigTimedWait(_) => DepthPush(frames, TimedWait, sig);
    case SetAction(_, _) =>
    case HandlerReturn => PopDepth(frames, sig);
    case YieldReturn =>
      PopDepth(frames, sig);
      if Top(frames).Suspend? {
        var saved := Top(frames).saved;
        DepthPush(Pop(frames), Suspend(saved, Second), sig);
        BeginDeliveryDepth(g.(mask := saved), Pop(frames) + [Suspend(saved, Second)], sig);
      }
  }

  lemma PopDepth(frames: seq<Frame>, sig: int)
    requires frames != []
    ensures Depth(Pop(frames), sig) <= Depth(frames, sig)
  {
  }

  lemma LoopTurnDepth(g: Globals, frames: seq<Frame>, forwarded: bool, sig: int)
    requires frames != []
    ensures var st := Turn(g, frames, forwarded).0;
            if FirstDeliverable(g, 1) == Some(sig) && Calls(g, sig, forwarded)
            then st.Running? && st.frames == frames + [InHandler(sig)]
            else st.Running? ==> Depth(st.frames, sig) <= Depth(frames, sig)
  {
    var next := FirstDeliverable(g, 1);
    if next.Some? {
      RaiseDepth(g.(pending := g.pending - {next.value}), frames, next.value, forwarded, sig);
    } else {
      PopDepth(frames, sig);
      AfterDeliveryDepth(g.(delivering := false), Pop(frames), sig);
    }
  }

  function Raises(sig: int, n: nat): seq<Step> {
    if n == 0 then [] else [GuestRaise(sig, false)] + Raises(sig, n - 1)
  }

  function Handlers(sig: int, n: nat): seq<Frame> {
    if n == 0 then [] else [InHandler(sig)] + Handlers(sig, n - 1)
  }

  /**
   * Unlike POSIX (section 2.4 of the System Interfaces volume), a signal is not
   * blocked while its own handler runs: from any point where the guest runs and
   * the mask does not hold the signal, its handler can be entered inside itself to
   * any depth.
   */
  lemma {:induction false} HandlerNestsToAnyDepth(g: Globals, frames: seq<Frame>, sig: int, n: nat)
    requires GuestRuns(frames) && Calls(g, sig, false)
    ensures Run(Running(g, frames), Raises(sig, n)).Some?
    ensures Run(Running(g, frames), Raises(sig, n)).value.0 == Running(g, frames + Handlers(sig, n))
    decreases n
  {
    if n == 0 {
      assert frames + [] == frames;
    } else {
      var inside := frames + [InHandler(sig)];
      HandlerNestsToAnyDepth(g, inside, sig, n - 1);
      hide Run;
      RunCons(Running(g, frames), GuestRaise(sig, false), Raises(sig, n - 1));
      assert inside + Handlers(sig, n - 1) == frames + Handlers(sig, n);
    }
  }

  /** No mask keeps the handler of a signal without a slot from being entered inside itself. */
  lemma NoMaskHoldsUnslotted(g: Globals, frames: seq<Frame>, sig: int, mask: SlotSet, n: nat)
    requires Valid(sig) && Slot(sig).None? && Action(g, sig).Fn? && GuestRuns(frames)
    ensures var masked := g.(mask := mask);
            && Run(Running(masked, frames), Raises(sig, n)).Some?
            && Run(Running(masked, frames), Raises(sig, n)).value.0 == Running(masked, frames + Handlers(sig, n))
  {
    HandlerNestsToAnyDepth(g.(mask := mask), frames, sig, n);
  }

  /** The mask holds the signal before every step of the run. */
  predicate HeldThroughout(st: State, steps: seq<Step>, sig: int)
    requires Run(st, steps).Some?
    decreases |steps|
  {
    steps == [] || (Blocked(st.g.mask, sig) && HeldThroughout(Next(st, steps[0]).value.0, steps[1..], sig))
  }

  /** While the mask holds a signal no run enters its handler again, in itself or anew. */
  lemma {:induction false} HeldNeverEntered(st: State, steps: seq<Step>, sig: int)
    requires st.Running? && Run(st, steps).Some? && HeldThroughout(st, steps, sig)
    ensures var st' := Run(st, steps).value.0; st'.Running? ==> Depth(st'.frames, sig) <= Depth(st.frames, sig)
    decreases |steps|
  {
    hide Next, Depth;
    if steps == [] {
    } else {
      var st1 := Next(st, steps[0]).value.0;
      EntersExactlyWhen(st, steps[0], sig);
      ExitedIsFinal(st1, steps[1..]);
      if st1.Running? { HeldNeverEntered(st1, steps[1..], sig); }
    }
  }

  // ---- The C functions over the process-wide variables ----

  /**
   * The parts of the API that run without re-entering guest code. Calling the
   * handler is left to the caller, as is the rest of the delivery loop.
   */
  class SignalLayer {
    var mask: SlotSet
    var pending: set<int>
    var delivering: bool
    var actions: map<int, Handler>

    function G(): Globals
      reads this
    {
      Globals(mask, pending, delivering, actions)
    }

    /** yurt_raise_now up to the call of the handler. */
    method RaiseNow(sig: int, forwarded: bool) returns (r: Raise)
      modifies this
      ensures (G(), r) == Raising(old(G()), sig, forwarded)
    {
      if sig <= 0 || sig >= NSIG {
        return Invalid;
      }
      var slot := Slot(sig);
      if slot.Some? && slot.value in mask {
        r := if sig in pending then Coalesced else Pended;
        pending := pending + {sig};
        return;
      }
      if forwarded {
        return Consumed;
      }
      var handler := if sig in actions then actions[sig] else Dfl;
      if handler == Ign {
        return Consumed;
      }
      if handler.Fn? {
        return Call(handler.id);
      }
      if Terminates(sig) {
        return Terminate(128 + sig);
      }
      return Consumed;
    }

    /** One scan of the delivery loop: takes the lowest deliverable signal off the pending word. */
    method ScanPending() returns (found: Option<int>)
      modifies this`pending
      ensures found == FirstDeliverable(old(G()), 1)
      ensures pending == if found.Some? then old(pending) - {found.value} else old(pending)
    {
      for sig := 1 to NSIG
        invariant pending == old(pending)
        invariant FirstDeliverable(old(G()), 1) == FirstDeliverable(old(G()), sig)
      {
        if sig !in pending {
          continue;
        }
        var slot := Slot(sig);
        if slot.Some? && slot.value in mask {
          continue;
        }
        pending := pending - {sig};
        return Some(sig);
      }
      return None;
    }

    /** sigtimedwait before it yields. */
    method TakeWanted(wanted: SlotSet) returns (found: Option<int>)
      modifies this`pending
      ensures found == FirstReceivable(old(G()), wanted, 1)
      ensures pending == if found.Some? then old(pending) - {found.value} else old(pending)
    {
      for sig := 1 to NSIG
        invariant pending == old(pending)
        invariant FirstReceivable(old(G()), wanted, 1) == FirstReceivable(old(G()), wanted, sig)
      {
        var slot := Slot(sig);
        if slot.None? || slot.value !in wanted || sig !in pending {
          continue;
        }
        pending := pending - {sig};
        return Some(sig);
      }
      return None;
    }

    /** sigprocmask up to its delivery; `deliver` says whether it goes on to one. */
    method ChangeMask(how: int, set_: Option<SlotSet>) returns (rc: int, oldset: SlotSet, deliver: bool)
      modifies this`mask
      ensures oldset == old(mask) && (deliver <==> set_.Some? && how in {0, 1, 2})
      ensures !deliver ==> mask == old(mask)
      // Block adds the slots of the set, unblock takes them out, and set replaces.
      ensures deliver && how == 0 ==> forall slot :: slot in mask <==> slot in old(mask) || slot in set_.value
      ensures deliver && how == 1 ==> forall slot :: slot in mask <==> slot in old(mask) && slot !in set_.value
      ensures deliver && how == 2 ==> forall slot :: slot in mask <==> slot in set_.value
      ensures rc == if set_.Some? && !deliver then -1 else 0
      ensures set_.Some? ==> NewMask(old(mask), how, set_.value) == if deliver then Some(mask) else None
    {
      oldset := mask;
      if set_.None? {
        return 0, oldset, false;
      }
      if how == SIG_BLOCK {
        mask := mask + set_.value;
      } else if how == SIG_UNBLOCK {
        mask := mask - set_.value;
      } else if how == SIG_SETMASK {
        mask := set_.value;
      } else {
        return -1, oldset, false;
      }
      return 0, oldset, true;
    }
  }
}
