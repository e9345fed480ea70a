/** The interrupt IN receive ring: several transfers kept in flight, a bounded queue
    that drops its oldest report, and a teardown that frees only what libusb has let go. */
module InterruptRing {
  import opened Bytes

  const DEPTH: int := 8
  const DEPTH_MAX: int := 32
  const QUEUE_MAX: nat := 64
  const WAIT_MAX: nat := 300
  const ERROR_NO_DEVICE: int := -4
  const ERROR_INTERRUPTED: int := -10

  type Report = seq<byte>

  /** How libusb says a transfer ended. */
  datatype Status = Completed(data: Report) | NoDevice | Stall | OtherEnd

  datatype Ring = Ring(depth: nat, pending: seq<Report>, stopping: bool, stalled: bool,
                       inflight: int, fatal: int, dropped: nat, windowCount: nat)

  function ClampDepth(depth: int): (d: nat)
    ensures 2 <= d <= DEPTH_MAX && (2 <= depth <= DEPTH_MAX ==> d == depth)
  {
    if depth < 2 then DEPTH else if depth > DEPTH_MAX then DEPTH_MAX else depth
  }

  /** The effect of the ended transfer, before the resubmission. */
  function Absorb(r: Ring, st: Status): Ring {
    match st
    case Completed(data) =>
      if data == [] then r
      else
        var full := |r.pending| >= QUEUE_MAX;
        r.(pending := (if full then r.pending[1..] else r.pending) + [data],
           dropped := r.dropped + (if full then 1 else 0),
           windowCount := r.windowCount + 1)
    case NoDevice => r.(fatal := ERROR_NO_DEVICE)
    case Stall => r.(stalled := true)
    case OtherEnd => r
  }

  predicate Resubmits(r: Ring, submitRv: int) {
    !r.stopping && submitRv == 0
  }

  /** interrupt_transfer_cb; submitRv is what libusb_submit_transfer would return. */
  function CallbackStep(r: Ring, st: Status, submitRv: int): Ring {
    var a := Absorb(r, st);
    if Resubmits(r, submitRv) then a
    else if r.stopping then a.(inflight := a.inflight - 1)
    else a.(inflight := a.inflight - 1, fatal := submitRv)
  }

  /** What one look at the queue tells the reader. */
  datatype Look = Got(report: Report) | Failed(error: int) | Wait

  function LookStep(r: Ring): (Ring, Look) {
    if r.pending != [] then (r.(pending := r.pending[1..]), Got(r.pending[0]))
    else if r.fatal != 0 then (r, Failed(r.fatal))
    else if r.stopping then (r, Failed(ERROR_INTERRUPTED))
    else (r, Wait)
  }

  /** struct interrupt_ring and the code that mutates it. */
  class InterruptRing {
    const depth: nat
    var pending: seq<Report>
    var stopping: bool
    var stalled: bool
    var inflight: int
    var fatal: int
    var dropped: nat
    var windowCount: nat

    function View(): Ring
      reads this
    {
      Ring(depth, pending, stopping, stalled, inflight, fatal, dropped, windowCount)
    }

    /** interrupt_ring_create up to the submissions. */
    constructor (requested: int)
      ensures View() == Ring(ClampDepth(requested), [], false, false, 0, 0, 0, 0)
    {
      depth := ClampDepth(requested);
      pending, stopping, stalled := [], false, false;
      inflight, fatal, dropped, windowCount := 0, 0, 0, 0;
    }

    /** interrupt_transfer_cb. */
    method Callback(st: Status, submitRv: int) returns (resubmitted: bool)
      modifies this
      ensures View() == CallbackStep(old(View()), st, submitRv)
      ensures resubmitted == Resubmits(old(View()), submitRv)
    {
      match st {
        case Completed(data) =>
          if |data| > 0 {
            if |pending| >= QUEUE_MAX {
              pending := pending[1..];
              dropped := dropped + 1;
            }
            pending := pending + [data];
            windowCount := windowCount + 1;
          }
        case NoDevice => fatal := ERROR_NO_DEVICE;
        case Stall => stalled := true;
        case OtherEnd =>
      }
      if !stopping {
        if submitRv == 0 {
          return true;
        }
        fatal := submitRv;
      }
      inflight := inflight - 1;
      return false;
    }

    /** One look at the queue inside interrupt_ring_next, under its lock. */
    method TakeNext() returns (look: Look)
      modifies this
      ensures (View(), look) == LookStep(old(View()))
    {
      if pending == [] {
        if fatal != 0 { return Failed(fatal); }
        if stopping { return Failed(ERROR_INTERRUPTED); }
        return Wait;
      }
      look := Got(pending[0]);
      pending := pending[1..];
    }
  }

  // ---------------------------------------------------------------- the ring in its world

  /** Where the reader thread is in the ring's life. Creating(i, true) is between the
      submission of transfer i and the increment of inflight. */
  datatype Phase = Creating(i: nat, between: bool) | Live | Draining(waited: nat) | Freed | Leaked

  /** The ring, the transfers libusb holds, and the history of reports. */
  datatype World = World(ring: Ring, submitted: set<nat>, phase: Phase,
                         completed: seq<Report>, delivered: seq<Report>, discarded: seq<Report>)

  datatype Action =
    | Submit(rv: int)
    | Count
    | FinishCreate
    | Complete(slot: nat, st: Status, submitRv: int)
    | Read
    | ClearHalt
    | BeginDestroy
    | WaitOnce
    | EndWait

  predicate Enabled(w: World, a: Action) {
    match a
    case Submit(_) => w.phase.Creating? && !w.phase.between && w.phase.i < w.ring.depth
    case Count => w.phase.Creating? && w.phase.between
    case FinishCreate => w.phase.Creating? && !w.phase.between && w.phase.i >= w.ring.depth
    case Complete(slot, _, _) => slot in w.submitted
    case Read => w.phase.Live? || w.phase.Draining?
    case ClearHalt => w.phase.Live?
    case BeginDestroy => w.phase.Live?
    case WaitOnce => w.phase.Draining? && w.phase.waited < WAIT_MAX && w.ring.inflight > 0
    case EndWait => w.phase.Draining? && !(w.phase.waited < WAIT_MAX && w.ring.inflight > 0)
  }

  function AfterComplete(w: World, slot: nat, st: Status, submitRv: int): World {
    var counts := st.Completed? && st.data != [];
    w.(ring := CallbackStep(w.ring, st, submitRv),
       submitted := if Resubmits(w.ring, submitRv) then w.submitted else w.submitted - {slot},
       completed := if counts then w.completed + [st.data] else w.completed,
       discarded := if counts && |w.ring.pending| >= QUEUE_MAX then w.discarded + [w.ring.pending[0]] else w.discarded)
  }

  function Apply(w: World, a: Action): World
    requires Enabled(w, a)
  {
    match a
    case Submit(rv) =>
      if rv == 0 then w.(submitted := w.submitted + {w.phase.i}, phase := Creating(w.phase.i, true))
      else w.(ring := w.ring.(fatal := rv), phase := Live)
    case Count => w.(ring := w.ring.(inflight := w.ring.inflight + 1), phase := Creating(w.phase.i + 1, false))
    case FinishCreate => w.(phase := Live)
    case Complete(slot, st, submitRv) => AfterComplete(w, slot, st, submitRv)
    case Read =>
      var (ring, look) := LookStep(w.ring);
      w.(ring := ring, delivered := if look.Got? then w.delivered + [look.report] else w.delivered)
    case ClearHalt => w.(ring := w.ring.(stalled := false))
    case BeginDestroy => w.(ring := w.ring.(stopping := true), phase := Draining(0))
    case WaitOnce => w.(phase := Draining(w.phase.waited + 1))
    case EndWait => w.(phase := if w.ring.inflight > 0 then Leaked else Freed)
  }

  predicate CanRun(w: World, run: seq<Action>)
    decreases |run|
  {
    run == [] || (Enabled(w, run[0]) && CanRun(Apply(w, run[0]), run[1..]))
  }

  function Run(w: World, run: seq<Action>): World
    requires CanRun(w, run)
    decreases |run|
  {
    if run == [] then w else Run(Apply(w, run[0]), run[1..])
  }

  function Created(requested: int): World {
    World(Ring(ClampDepth(requested), [], false, false, 0, 0, 0, 0), {}, Creating(0, false), [], [], [])
  }

  /** c is an interleaving of d and e, each in its own order. */
  predicate Interleaves(c: seq<Report>, d: seq<Report>, e: seq<Report>)
    decreases |c|
  {
    if c == [] then d == [] && e == []
    else
      var last, front := c[|c| - 1], c[..|c| - 1];
      || (d != [] && d[|d| - 1] == last && Interleaves(front, d[..|d| - 1], e))
      || (e != [] && e[|e| - 1] == last && Interleaves(front, d, e[..|e| - 1]))
  }

  /** The completions that have left the queue. */
  function Left(w: World): seq<Report>
    requires |w.ring.pending| <= |w.completed|
  {
    w.completed[..|w.completed| - |w.ring.pending|]
  }

  predicate History(w: World) {
    && |w.ring.pending| <= QUEUE_MAX
    && |w.ring.pending| <= |w.completed|
    && w.completed == Left(w) + w.ring.pending
    && Interleaves(Left(w), w.delivered, w.discarded)
    && w.ring.dropped == |w.discarded|
  }

  function Slots(n: nat): (s: set<nat>)
    ensures forall i: nat :: i in s <==> i < n
  {
    if n == 0 then {} else Slots(n - 1) + {n - 1}
  }

  predicate Counting(w: World) {
    && w.ring.inflight + (if w.phase.Creating? && w.phase.between then 1 else 0) == |w.submitted|
    && w.submitted <= Slots(w.ring.depth)
    && (w.phase.Creating? ==>
          && w.phase.i + (if w.phase.between then 1 else 0) <= w.ring.depth
          && w.submitted <= Slots(w.phase.i + if w.phase.between then 1 else 0))
    && (w.phase.Freed? ==> w.submitted == {})
    && (w.ring.stopping <==> w.phase.Draining? || w.phase.Freed? || w.phase.Leaked?)
  }

  /** A transfer is out of the ring before teardown only after an error the reader will see. */
  predicate Explained(w: World) {
    match w.phase
    case Creating(i, between) =>
      w.ring.fatal != 0 || w.submitted == Slots(i + if between then 1 else 0)
    case _ => w.ring.fatal != 0 || w.ring.stopping || w.submitted == Slots(w.ring.depth)
  }

  predicate Inv(w: World) {
    History(w) && Counting(w) && Explained(w)
  }

  lemma PushHistory(w: World, slot: nat, data: Report, submitRv: int)
    requires History(w) && data != []
    ensures History(AfterComplete(w, slot, Completed(data), submitRv))
  {
    var t := AfterComplete(w, slot, Completed(data), submitRv);
    if |w.ring.pending| >= QUEUE_MAX {
      var oldest := w.ring.pending[0];
      assert Left(t) == Left(w) + [oldest];
      assert Left(t)[..|Left(t)| - 1] == Left(w);
      assert t.discarded[..|t.discarded| - 1] == w.discarded;
    } else {
      assert Left(t) == Left(w);
    }
  }

  lemma ReadHistory(w: World)
    requires History(w) && Enabled(w, Read)
    ensures History(Apply(w, Read))
  {
    var t := Apply(w, Read);
    if w.ring.pending != [] {
      assert Left(t) == Left(w) + [w.ring.pending[0]];
      assert Left(t)[..|Left(t)| - 1] == Left(w);
      assert t.delivered[..|t.delivered| - 1] == w.delivered;
    } else {
      assert Left(t) == Left(w);
    }
  }

  lemma StepHistory(w: World, a: Action)
    requires History(w) && Enabled(w, a)
    ensures History(Apply(w, a))
  {
    if a.Complete? && a.st.Completed? && a.st.data != [] {
      PushHistory(w, a.slot, a.st.data, a.submitRv);
    } else if a.Read? {
      ReadHistory(w);
    } else {
      assert Left(Apply(w, a)) == Left(w);
    }
  }

  lemma SubmitCounting(w: World, rv: int)
    requires Counting(w) && Explained(w) && Enabled(w, Submit(rv))
    ensures Counting(Apply(w, Submit(rv))) && Explained(Apply(w, Submit(rv)))
  {
    if rv == 0 {
      assert w.phase.i !in w.submitted;
      assert Slots(w.phase.i) + {w.phase.i} == Slots(w.phase.i + 1);
    }
  }

  lemma CompleteCounting(w: World, slot: nat, st: Status, submitRv: int)
    requires Counting(w) && Explained(w) && Enabled(w, Complete(slot, st, submitRv))
    ensures Counting(AfterComplete(w, slot, st, submitRv)) && Explained(AfterComplete(w, slot, st, submitRv))
  {
    hide Slots;
    AbsorbKeeps(w.ring, st);
    hide Absorb;
  }

  /** What ended a transfer never touches the counters of the protocol. */
  lemma AbsorbKeeps(r: Ring, st: Status)
    ensures var a := Absorb(r, st);
            a.depth == r.depth && a.inflight == r.inflight && a.stopping == r.stopping && (r.fatal != 0 ==> a.fatal != 0)
  {
  }

  lemma OtherCounting(w: World, a: Action)
    requires Counting(w) && Explained(w) && Enabled(w, a) && !a.Submit? && !a.Complete?
    ensures Counting(Apply(w, a)) && Explained(Apply(w, a))
  {
    hide Slots;
    if a.EndWait? && w.ring.inflight <= 0 {
      assert |w.submitted| == 0;
    }
  }

  lemma StepCounting(w: World, a: Action)
    requires Counting(w) && Explained(w) && Enabled(w, a)
    ensures Counting(Apply(w, a)) && Explained(Apply(w, a))
  {
    match a
    case Submit(rv) => SubmitCounting(w, rv);
    case Complete(slot, st, submitRv) => CompleteCounting(w, slot, st, submitRv);
    case _ => OtherCounting(w, a);
  }

  lemma {:induction false} RunKeepsInv(w: World, run: seq<Action>)
    requires Inv(w) && CanRun(w, run)
    ensures Inv(Run(w, run))
    decreases |run|
  {
    hide History;
    hide Counting;
    hide Explained;
    hide Apply;
    if run != [] {
      StepHistory(w, run[0]);
      StepCounting(w, run[0]);
      RunKeepsInv(Apply(w, run[0]), run[1..]);
    }
  }

  lemma CreatedInv(requested: int)
    ensures Inv(Created(requested))
  {
    assert Left(Created(requested)) == [];
  }

  /** Every reachable state of every ring: once created, inflight is the number of
      transfers libusb holds; the slots are freed only when it holds none; the queue
      stays within its bound; a transfer is missing only behind an error or a teardown;
      and what completed is an interleaving of delivered and dropped reports, each in
      completion order, followed by the queue. */
  lemma RingSafety(requested: int, run: seq<Action>)
    requires CanRun(Created(requested), run)
    ensures var w := Run(Created(requested), run);
            && (!w.phase.Creating? ==> w.ring.inflight == |w.submitted|)
            && (w.phase.Freed? ==> w.submitted == {})
            && |w.ring.pending| <= 64
            && (w.phase.Live? && w.ring.fatal == 0 ==> w.submitted == Slots(w.ring.depth))
            && |w.ring.pending| <= |w.completed|
            && w.completed == Left(w) + w.ring.pending
            && Interleaves(Left(w), w.delivered, w.discarded)
            && w.ring.dropped == |w.discarded|
  {
    hide Run;
    hide CanRun;
    hide Interleaves;
    hide Slots;
    CreatedInv(requested);
    RunKeepsInv(Created(requested), run);
  }

  /** The reader sees an error only after it has been handed everything that was kept:
      nothing completed is still waiting behind the error. */
  lemma ErrorsComeLast(requested: int, run: seq<Action>)
    requires CanRun(Created(requested), run) && LookStep(Run(Created(requested), run).ring).1.Failed?
    ensures var w := Run(Created(requested), run); Interleaves(w.completed, w.delivered, w.discarded)
  {
    RingSafety(requested, run);
    var w := Run(Created(requested), run);
    assert Left(w) == w.completed;
  }

  /** Once teardown has begun every completion brings the free one transfer closer. */
  lemma TeardownProgress(w: World, slot: nat, st: Status, submitRv: int)
    requires Inv(w) && Enabled(w, Complete(slot, st, submitRv)) && w.ring.stopping
    ensures var t := Apply(w, Complete(slot, st, submitRv));
            t.ring.inflight == w.ring.inflight - 1 && t.submitted == w.submitted - {slot}
  {
  }

  /** A drop happens exactly when a report completes onto a full queue, and it is the oldest. */
  lemma DropsOldestWhenFull(w: World, slot: nat, st: Status, submitRv: int)
    requires Inv(w) && Enabled(w, Complete(slot, st, submitRv))
    ensures var t := Apply(w, Complete(slot, st, submitRv));
            && (t.discarded != w.discarded <==> st.Completed? && st.data != [] && |w.ring.pending| == 64)
            && (t.discarded != w.discarded ==> t.discarded == w.discarded + [w.ring.pending[0]]
                                               && t.ring.pending == w.ring.pending[1..] + [st.data])
  {
  }
}
