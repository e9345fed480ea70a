/** What ends the reader of an interrupt ring and what does not: failures, halts and the
    teardown, read off the list of events alone. */
module RingErrors {
  import opened InterruptRing
  import opened Wrappers

  /** A failure: a refused submission, a refused resubmission outside teardown, or a lost
      device, whose code is -4. When both happen at once the refusal is the later one. */
  function FailureOf(stopping: bool, a: Action): Option<int> {
    match a
    case Submit(rv) => if rv != 0 then Some(rv) else None
    case Complete(_, st, rv) =>
      if !stopping && rv != 0 then Some(rv) else if st.NoDevice? then Some(-4) else None
    case _ => None
  }

  function LastFailure(stopping: bool, run: seq<Action>): (last: Option<int>)
    ensures last.Some? ==> last.value != 0
    decreases |run|
  {
    if run == [] then None
    else
      match LastFailure(stopping || run[0].BeginDestroy?, run[1..])
      case Some(e) => Some(e)
      case None => FailureOf(stopping, run[0])
  }

  /** An endpoint halts with a stalled transfer and stays halted until the reader clears it. */
  function Halted(before: bool, run: seq<Action>): bool
    decreases |run|
  {
    if run == [] then before
    else
      Halted(if run[0].ClearHalt? then false else before || (run[0].Complete? && run[0].st.Stall?), run[1..])
  }

  lemma StepErrors(w: World, a: Action)
    requires Enabled(w, a)
    ensures var t := Apply(w, a);
            && t.ring.fatal == FailureOf(w.ring.stopping, a).GetOr(w.ring.fatal)
            && t.ring.stopping == (w.ring.stopping || a.BeginDestroy?)
            && t.ring.stalled == if a.ClearHalt? then false else w.ring.stalled || (a.Complete? && a.st.Stall?)
  {
  }

  lemma {:induction false} RunErrors(w: World, run: seq<Action>)
    requires CanRun(w, run)
    ensures var t := Run(w, run);
            && t.ring.fatal == LastFailure(w.ring.stopping, run).GetOr(w.ring.fatal)
            && t.ring.stopping == (w.ring.stopping || exists a :: a in run && a.BeginDestroy?)
            && t.ring.stalled == Halted(w.ring.stalled, run)
    decreases |run|
  {
    hide Enabled;
    hide Apply;
    if run != [] {
      StepErrors(w, run[0]);
      RunErrors(Apply(w, run[0]), run[1..]);
      assert forall a :: a in run <==> a == run[0] || a in run[1..];
    }
  }

  /** For every ring and every run: fatal is the code of the last failure and 0 exactly when
      there was none, a halt is noted from a stall until it is cleared, and the reader is told
      an error exactly when its queue is empty and there was a failure, whose code it gets, or
      a teardown, for which it gets -10. A stall alone never ends it. */
  lemma ReaderEndsExactly(requested: int, run: seq<Action>)
    requires CanRun(Created(requested), run)
    ensures var r, last := Run(Created(requested), run).ring, LastFailure(false, run);
            && r.fatal == last.GetOr(0) && (r.fatal == 0 <==> last.None?)
            && r.stalled == Halted(false, run)
            && (LookStep(r).1.Failed? <==> r.pending == [] && (last.Some? || exists a :: a in run && a.BeginDestroy?))
            && (LookStep(r).1.Failed? ==> LookStep(r).1.error == last.GetOr(-10))
  {
    RunErrors(Created(requested), run);
    hide Run;
    hide CanRun;
    hide Halted;
    hide LastFailure;
  }

  /** One completion, by how the transfer ended. A stall whose resubmission succeeds changes
      nothing but the note of the halt; a lost device never notes one; what is neither a
      report nor one of these leaves the queue and both notes alone. */
  lemma CompletionExactly(w: World, slot: nat, st: Status, rv: int)
    requires Enabled(w, Complete(slot, st, rv))
    ensures var r, t := w.ring, Apply(w, Complete(slot, st, rv));
            var kept := !r.stopping && rv == 0;
            && t.submitted == (if kept then w.submitted else w.submitted - {slot})
            && t.ring.inflight == r.inflight - (if kept then 0 else 1)
            && t.ring.fatal == (if !r.stopping && rv != 0 then rv else if st.NoDevice? then -4 else r.fatal)
            && t.ring.stalled == (r.stalled || st.Stall?)
            && (!st.Completed? || st.data == [] ==> t.ring.pending == r.pending && t.completed == w.completed)
            && (st.Completed? && st.data != [] ==>
                  && t.completed == w.completed + [st.data]
                  && t.ring.windowCount == r.windowCount + 1
                  && t.ring.pending == (if |r.pending| >= 64 then r.pending[1..] else r.pending) + [st.data])
            && (st.Stall? && kept ==> t == w.(ring := r.(stalled := true)))
  {
  }

  /** The wait at teardown ends when nothing is in flight or after 300 turns, and frees the
      ring only in the first case. */
  lemma WaitEndsExactly(w: World)
    requires w.phase.Draining?
    ensures Enabled(w, EndWait) <==> w.ring.inflight <= 0 || w.phase.waited >= 300
    ensures Enabled(w, WaitOnce) <==> !Enabled(w, EndWait)
    ensures Enabled(w, EndWait) ==> Apply(w, EndWait) == w.(phase := if w.ring.inflight <= 0 then Freed else Leaked)
  {
  }

  /** A ring asks for the depth it was given, between 2 and 32; 8 when it was given less. */
  lemma DepthExactly(requested: int)
    ensures Created(requested).ring.depth == if requested < 2 then 8 else if requested > 32 then 32 else requested
  {
  }

  lemma {:induction false} NoneAfterCreation(w: World, run: seq<Action>, j: nat)
    requires CanRun(w, run) && !w.phase.Creating? && j < |run|
    ensures !run[j].Submit?
    decreases |run|
  {
    hide CallbackStep;
    if j > 0 {
      NoneAfterCreation(Apply(w, run[0]), run[1..], j - 1);
    }
  }

  /** The first refused submission is the last one: no later transfer is submitted. */
  lemma {:induction false} RefusalEndsCreation(w: World, run: seq<Action>, i: nat, j: nat)
    requires CanRun(w, run) && i < j < |run| && run[i].Submit? && run[i].rv != 0
    ensures !run[j].Submit?
    decreases |run|
  {
    var t := Apply(w, run[0]);
    if i == 0 {
      NoneAfterCreation(t, run[1..], j - 1);
    } else {
      RefusalEndsCreation(t, run[1..], i - 1, j - 1);
    }
  }
}
