/**
 * What a program sees of the signal layer: laws about calls and runs, stated on
 * slots, signals and the stack alone.
 */
module SignalLaws {
  import opened Wrappers
  import opened Signals

  /** The program starts in a state that satisfies the invariant, so every run of it stays there. */
  lemma RunsKeepInv(steps: seq<Step>)
    requires Run(Start, steps).Some?
    ensures Inv(Start) && Inv(Run(Start, steps).value.0)
  {
    StartInv();
    ReachableInv(Start, steps);
  }

  lemma StartInv()
    ensures Inv(Start) && forall sig :: Depth(Start.frames, sig) == 0
  {
    assert Pop([Main]) == [];
  }

  // ---- The tables ----

  /** Ten signals have a slot; SIGUSR1, SIGUSR2 and SIGALRM share the last one. */
  lemma WhoseSlot(sig: int)
    ensures Slot(sig).Some? <==> sig in {1, 2, 3, 10, 12, 13, 14, 15, 17, 28}
    ensures Slot(sig).Some? ==> 0 <= Slot(sig).value < 8
    ensures Slot(sig) == Some(0) ==> sig == 1
    ensures Slot(sig) == Some(1) ==> sig == 2
    ensures Slot(sig) == Some(2) ==> sig == 3
    ensures Slot(sig) == Some(3) ==> sig == 15
    ensures Slot(sig) == Some(4) ==> sig == 17
    ensures Slot(sig) == Some(5) ==> sig == 28
    ensures Slot(sig) == Some(6) ==> sig == 13
    ensures Slot(sig) == Some(7) ==> sig in {10, 12, 14}
  {
  }

  /** By default a signal ends the process unless it is about children, job control or the terminal, or has no name. */
  lemma DefaultAction(sig: int)
    ensures 0 < sig < 32 ==> (Terminates(sig) <==> sig !in {16, 17, 18, 19, 20, 21, 22, 23, 27, 28})
    ensures Valid(sig) <==> 0 < sig < 32
  {
  }

  // ---- Raising ----

  /** The program and its handlers call when they run, the host raises while the guest yields. */
  lemma WhoMayStep(g: Globals, frames: seq<Frame>, sig: int, forwarded: bool)
    requires frames != []
    ensures var top := frames[|frames| - 1];
            && (Next(Running(g, frames), GuestRaise(sig, forwarded)).Some? <==> top.Main? || top.InHandler?)
            && (Next(Running(g, frames), HostRaise(sig, forwarded)).Some? <==>
                top.TimedWait? || (top.Suspend? && top.phase.Yielding?))
            && (Next(Running(g, frames), HandlerReturn).Some? <==> top.InHandler?)
            && (Next(Running(g, frames), LoopTurn(forwarded)).Some? <==> top.Delivering?)
            && (Next(Running(g, frames), YieldReturn).Some? <==>
                top.TimedWait? || (top.Suspend? && top.phase.Yielding?))
  {
    hide Slot, Terminates, FirstDeliverable;
  }

  /** What becomes of a signal that the mask does not hold, whoever raises it. */
  lemma RaiseDispatches(g: Globals, frames: seq<Frame>, step: Step)
    requires (step.GuestRaise? && GuestRuns(frames)) || (step.HostRaise? && HostRuns(frames))
    requires 0 < step.sig < 32 && (Slot(step.sig).Some? ==> Slot(step.sig).value !in g.mask)
    ensures var next, sig := Next(Running(g, frames), step), step.sig;
            && next.Some? && next.value.1 == [Raised(sig), Dispatched(sig)]
            && next.value.0 ==
               if step.forwarded then Running(g, frames)
               else if sig in g.actions && g.actions[sig].Fn? then Running(g, frames + [InHandler(sig)])
               else if sig in g.actions && g.actions[sig].Ign? then Running(g, frames)
               else if Terminates(sig) then Exited(128 + sig, g)
               else Running(g, frames)
  {
    assert [Raised(step.sig)] + [Dispatched(step.sig)] == [Raised(step.sig), Dispatched(step.sig)];
    hide Terminates, Slot;
  }

  /** A signal whose dispatch the process survives is one with a handler, ignored, or harmless by default. */
  lemma SurvivesExactlyWhen(g: Globals, frames: seq<Frame>, sig: int)
    requires GuestRuns(frames) && 0 < sig < 32 && (Slot(sig).Some? ==> Slot(sig).value !in g.mask)
    ensures Survives(g, sig) <==> Next(Running(g, frames), GuestRaise(sig, false)).value.0.Running?
  {
    hide Slot, Terminates;
  }

  /** A signal that the mask holds becomes pending, whoever raises it, and nothing else happens. */
  lemma RaiseHeld(g: Globals, frames: seq<Frame>, step: Step)
    requires step.GuestRaise? || step.HostRaise?
    requires 0 < step.sig < 32 && Slot(step.sig).Some? && Slot(step.sig).value in g.mask
    ensures var next := Next(Running(g, frames), step);
            next.Some? ==> next.value.0 == Running(g.(pending := g.pending + {step.sig}), frames) &&
                           Dispatched(step.sig) !in next.value.1
  {
    hide Slot;
  }

  /** sigaction decides what a later raise does. */
  lemma ActionIsUsed(g: Globals, frames: seq<Frame>, sig: int, handler: Handler)
    requires GuestRuns(frames) && 0 < sig < 32
    ensures Next(Running(g, frames), SetAction(sig, handler)) ==
            Some((Running(g.(actions := g.actions[sig := handler]), frames), []))
  {
  }

  // ---- The mask ----

  /** Block adds the slots, unblock takes them out, and set replaces; anything else changes nothing. */
  lemma MaskBySlot(g: Globals, frames: seq<Frame>, how: int, slots: SlotSet, slot: int)
    requires GuestRuns(frames)
    ensures var next := Next(Running(g, frames), ProcMask(how, Some(slots)));
            && next.Some? && next.value.0.Running?
            && (slot in next.value.0.g.mask <==>
                if how == 0 then slot in g.mask || slot in slots
                else if how == 1 then slot in g.mask && slot !in slots
                else if how == 2 then slot in slots
                else slot in g.mask)
  {
  }

  /** A step that is no sigprocmask and neither enters nor leaves a sigsuspend. */
  predicate SparesMask(st: State, step: Step) {
    && !step.ProcMask? && !step.SigSuspend?
    && (step.YieldReturn? && st.Running? && st.frames != [] ==> !Top(st.frames).Suspend?)
  }

  predicate RunSparesMask(st: State, steps: seq<Step>)
    requires Run(st, steps).Some?
    decreases |steps|
  {
    steps == [] || (SparesMask(st, steps[0]) && RunSparesMask(Next(st, steps[0]).value.0, steps[1..]))
  }

  lemma StepSparesMask(st: State, step: Step)
    requires SparesMask(st, step) && Next(st, step).Some?
    ensures Next(st, step).value.0.g.mask == st.g.mask
  {
    hide FirstDeliverable, FirstReceivable, Slot, Terminates;
  }

  lemma {:induction false} MaskStays(st: State, steps: seq<Step>)
    requires Run(st, steps).Some? && RunSparesMask(st, steps)
    ensures Run(st, steps).value.0.g.mask == st.g.mask
    decreases |steps|
  {
    hide Next, SparesMask;
    if steps == [] {
    } else {
      StepSparesMask(st, steps[0]);
      MaskStays(Next(st, steps[0]).value.0, steps[1..]);
    }
  }

  /** So a run that leaves the mask alone holds throughout what the mask held at its start. */
  lemma {:induction false} HeldByMask(st: State, steps: seq<Step>, sig: int)
    requires Run(st, steps).Some? && RunSparesMask(st, steps) && Blocked(st.g.mask, sig)
    ensures HeldThroughout(st, steps, sig)
    decreases |steps|
  {
    hide Next, SparesMask, Blocked;
    if steps == [] {
    } else {
      StepSparesMask(st, steps[0]);
      HeldByMask(Next(st, steps[0]).value.0, steps[1..], sig);
    }
  }

  /**
   * After sigprocmask(SIG_BLOCK) a raise of a signal of the set leaves it pending
   * and enters no handler, at whatever later point of whatever run that leaves the
   * mask alone.
   */
  lemma BlockHolds(st: State, slots: SlotSet, steps: seq<Step>, step: Step)
    requires st.Running? && GuestRuns(st.frames) && (step.GuestRaise? || step.HostRaise?)
    requires 0 < step.sig < 32 && Slot(step.sig).Some? && Slot(step.sig).value in slots
    requires var st1 := Next(st, ProcMask(SIG_BLOCK, Some(slots))).value.0;
             Run(st1, steps).Some? && RunSparesMask(st1, steps) && Run(st1, steps).value.0.Running?
    ensures var st2 := Run(Next(st, ProcMask(SIG_BLOCK, Some(slots))).value.0, steps).value.0;
            Next(st2, step).Some? ==>
              Next(st2, step).value.0 == Running(st2.g.(pending := st2.g.pending + {step.sig}), st2.frames) &&
              Dispatched(step.sig) !in Next(st2, step).value.1
  {
    var st1 := Next(st, ProcMask(SIG_BLOCK, Some(slots))).value.0;
    var st2 := Run(st1, steps).value.0;
    MaskBySlot(st.g, st.frames, SIG_BLOCK, slots, Slot(step.sig).value);
    assert st == Running(st.g, st.frames);
    MaskStays(st1, steps);
    hide Next, Run, Slot;
    RaiseHeld(st2.g, st2.frames, step);
    assert st2 == Running(st2.g, st2.frames);
  }

  /**
   * A pending signal that sigprocmask(SIG_UNBLOCK) lets go is dispatched, or taken by
   * sigtimedwait, before the delivery ends, in every run that leaves the mask alone.
   */
  lemma UnblockDelivers(st: State, slots: SlotSet, steps: seq<Step>, sig: int)
    requires Inv(st) && st.Running? && GuestRuns(st.frames)
    requires sig in st.g.pending && Slot(sig).Some? && Slot(sig).value in slots
    requires var st1 := Next(st, ProcMask(SIG_UNBLOCK, Some(slots))).value.0;
             Run(st1, steps).Some? && RunSparesMask(st1, steps)
    ensures var (st2, events) := Run(Next(st, ProcMask(SIG_UNBLOCK, Some(slots))).value.0, steps).value;
            st2.Running? && !st2.g.delivering ==>
              sig !in st2.g.pending && (Dispatched(sig) in events || Received(sig) in events)
  {
    hide Next, Run, Slot, Inv, RunSparesMask;
    var step := ProcMask(SIG_UNBLOCK, Some(slots));
    MaskBySlot(st.g, st.frames, SIG_UNBLOCK, slots, Slot(sig).value);
    assert st == Running(st.g, st.frames);
    StepKeepsInv(st, step);
    ProcMaskKeepsPending(st, SIG_UNBLOCK, slots);
    LooseIsDelivered(Next(st, step).value.0, steps, sig);
  }

  /** A pending signal that the mask does not hold is gone when the delivery has ended. */
  lemma LooseIsDelivered(st: State, steps: seq<Step>, sig: int)
    requires Inv(st) && sig in st.g.pending && !Blocked(st.g.mask, sig)
    requires Run(st, steps).Some? && RunSparesMask(st, steps)
    ensures var (st', events) := Run(st, steps).value;
            st'.Running? && !st'.g.delivering ==>
              sig !in st'.g.pending && (Dispatched(sig) in events || Received(sig) in events)
  {
    hide Next, Run, RunSparesMask, Blocked;
    MaskStays(st, steps);
    ReachableInv(st, steps);
    if sig !in Run(st, steps).value.0.g.pending { ClearedInRun(st, steps, sig); }
  }

  lemma {:induction false} ClearedInRun(st: State, steps: seq<Step>, sig: int)
    requires Inv(st) && Run(st, steps).Some?
    requires sig in st.g.pending && sig !in Run(st, steps).value.0.g.pending
    ensures Dispatched(sig) in Run(st, steps).value.1 || Received(sig) in Run(st, steps).value.1
    decreases |steps|
  {
    hide Next, Inv;
    if steps == [] {
    } else {
      var (st1, ev) := Next(st, steps[0]).value;
      if sig in st1.g.pending {
        StepKeepsInv(st, steps[0]);
        ClearedInRun(st1, steps[1..], sig);
      } else {
        PendingClearedOnlyByDelivery(st, steps[0], sig);
        assert ev[0] == Dispatched(sig) || ev[0] == Received(sig);
      }
    }
  }

  lemma ProcMaskKeepsPending(st: State, how: int, slots: SlotSet)
    requires st.Running? && GuestRuns(st.frames)
    ensures Next(st, ProcMask(how, Some(slots))).value.0.g.pending == st.g.pending
  {
  }

  // ---- sigsuspend ----

  /** While sigsuspend waits the mask is the one it was given. */
  lemma SuspendUsesMask(st: State, mask: SlotSet, steps: seq<Step>)
    requires st.Running? && GuestRuns(st.frames)
    requires var st1 := Next(st, SigSuspend(Some(mask))).value.0; Run(st1, steps).Some? && RunSparesMask(st1, steps)
    ensures Run(Next(st, SigSuspend(Some(mask))).value.0, steps).value.0.g.mask == mask
  {
    var st1 := Next(st, SigSuspend(Some(mask))).value.0;
    SuspendSetsMask(st, mask);
    MaskStays(st1, steps);
  }

  lemma SuspendSetsMask(st: State, mask: SlotSet)
    requires st.Running? && GuestRuns(st.frames)
    ensures Next(st, SigSuspend(Some(mask))).Some? && Next(st, SigSuspend(Some(mask))).value.0.g.mask == mask
  {
  }

  /** With nothing to deliver it returns after one yield, to where it was called and with the mask put back. */
  lemma SuspendReturns(g: Globals, frames: seq<Frame>, mask: SlotSet)
    requires GuestRuns(frames) && !g.delivering
    requires forall sig :: sig in g.pending ==> Blocked(mask, sig) && Blocked(g.mask, sig)
    ensures Run(Running(g, frames), [SigSuspend(Some(mask)), LoopTurn(false), YieldReturn, LoopTurn(false)]) ==
            Some((Running(g, frames), []))
  {
    hide Slot, FirstDeliverable;
    var s, m := Suspend(g.mask, First), g.(mask := mask);
    var st1 := Running(m.(delivering := true), frames + [s] + [Delivering]);
    var st2 := Running(m, frames + [Suspend(g.mask, Yielding)]);
    var st3 := Running(g.(delivering := true), frames + [Suspend(g.mask, Second)] + [Delivering]);
    Step1(g, frames, mask);
    NothingToDeliver(st1.g);
    NothingToDeliver(st3.g);
    assert Pop(st1.frames) == frames + [s] && Pop(frames + [s]) == frames;
    assert Next(st1, LoopTurn(false)) == Some((st2, []));
    assert Pop(st2.frames) == frames;
    assert Next(st2, YieldReturn) == Some((st3, []));
    assert Pop(st3.frames) == frames + [Suspend(g.mask, Second)] && Pop(frames + [Suspend(g.mask, Second)]) == frames;
    assert Next(st3, LoopTurn(false)) == Some((Running(g, frames), []));
    hide Next;
    RunOne(st3, LoopTurn(false), Running(g, frames), []);
    RunOne(st2, YieldReturn, st3, [LoopTurn(false)]);
    RunOne(st1, LoopTurn(false), st2, [YieldReturn, LoopTurn(false)]);
    RunOne(Running(g, frames), SigSuspend(Some(mask)), st1, [LoopTurn(false), YieldReturn, LoopTurn(false)]);
  }

  lemma Step1(g: Globals, frames: seq<Frame>, mask: SlotSet)
    requires GuestRuns(frames) && !g.delivering
    ensures Next(Running(g, frames), SigSuspend(Some(mask))) ==
            Some((Running(g.(mask := mask, delivering := true), frames + [Suspend(g.mask, First)] + [Delivering]), []))
  {
  }

  lemma NothingToDeliver(g: Globals)
    requires forall sig :: sig in g.pending ==> Blocked(g.mask, sig)
    ensures FirstDeliverable(g, 1).None?
  {
    hide Blocked;
  }

  /** A quiet step before a run. */
  lemma RunOne(st: State, step: Step, st': State, rest: seq<Step>)
    requires Next(st, step) == Some((st', [])) && (Run(st', rest).Some? ==> Run(st', rest).value.1 == [])
    ensures Run(st, [step] + rest) == Run(st', rest)
  {
    hide Next;
    assert ([step] + rest)[0] == step && ([step] + rest)[1..] == rest;
    var none: seq<Event> := [];
    assert none + none == none;
  }

  // ---- sigtimedwait ----

  /** It takes the lowest pending signal of the wanted slots, and yields exactly when there is none. */
  lemma TimedWaitTakesLowest(g: Globals, frames: seq<Frame>, wanted: SlotSet)
    requires GuestRuns(frames)
    ensures var next := Next(Running(g, frames), SigTimedWait(wanted));
            && next.Some? && next.value.0.Running?
            && (if next.value.0.frames == frames then
                  exists sig :: 0 < sig < 32 && sig in g.pending && Slot(sig).Some? && Slot(sig).value in wanted
                    && next.value == (Running(g.(pending := g.pending - {sig}), frames), [Received(sig)])
                    && forall low :: 0 < low < sig && low in g.pending && Slot(low).Some? ==>
                                       Slot(low).value !in wanted
                else
                  && next.value == (Running(g, frames + [TimedWait]), [])
                  && forall sig :: 0 < sig < 32 && sig in g.pending && Slot(sig).Some? ==> Slot(sig).value !in wanted)
  {
    hide Slot;
    var found := FirstReceivable(g, wanted, 1);
    if found.None? {
      assert |frames + [TimedWait]| == |frames| + 1;
      forall sig | 0 < sig < 32 && sig in g.pending && Slot(sig).Some?
        ensures Slot(sig).value !in wanted
      {
        assert !Receivable(g, wanted, sig);
      }
    } else {
      forall low | 0 < low < found.value && low in g.pending && Slot(low).Some?
        ensures Slot(low).value !in wanted
      {
        assert !Receivable(g, wanted, low);
      }
    }
  }
}
