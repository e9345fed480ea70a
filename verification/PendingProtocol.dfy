/** The shared displacement accumulators: any number of threads adding commands,
    ticking and merging, one atomic operation at a time. */
module PendingProtocol {
  import opened Bytes
  import opened HidLayout
  import opened HidInvariant
  import opened HidCodec
  import opened InjectClock
  import opened ReportRoundTrip
  import opened MergeReport
  import opened Wrappers

  const MOVE_LIMIT: int := 32767
  const PENDING_LIMIT: int := 1048576

  datatype Axis = X | Y | W

  datatype Vec = Vec(x: int, y: int, w: int)
  {
    function At(a: Axis): int {
      match a
      case X => x
      case Y => y
      case W => w
    }

    function With(a: Axis, v: int): Vec {
      match a
      case X => this.(x := v)
      case Y => this.(y := v)
      case W => this.(w := v)
    }

    function Plus(o: Vec): Vec { Vec(x + o.x, y + o.y, w + o.w) }

    function Minus(o: Vec): Vec { Vec(x - o.x, y - o.y, w - o.w) }
  }

  const ZERO: Vec := Vec(0, 0, 0)

  function Unit(a: Axis, v: int): Vec { ZERO.With(a, v) }

  function Saturate(v: int, limit: int): int
    requires limit >= 0
  {
    if v > limit then limit else if v < -limit then -limit else v
  }

  /** One pending call of add_pending, its argument already clamped. */
  datatype Add = Add(axis: Axis, delta: int)

  function MakeAdd(a: Axis, v: int): Add { Add(a, Saturate(v, MOVE_LIMIT)) }

  /** What a consumer works for: the tick thread with the interface's descriptor, or a
      physical report with the descriptor of its interface. */
  datatype Role = Tick(desc: seq<byte>) | Merge(desc: seq<byte>, report: seq<byte>)

  datatype Next = Done | Decide(role: Role, step: InjectStep)

  /** A thread's progress. Taking records which accumulators it has emptied so far;
      Adding is inside a run of add_pending calls, `seen` being the value it will compare. */
  datatype Local =
    | Idle
    | Taking(role: Role, gotX: Option<int>, gotY: Option<int>, gotW: Option<int>)
    | Adding(todo: seq<Add>, seen: Option<int>, then_: Next)
    | Deciding(role: Role, step: InjectStep)

  /** Running totals kept only to state the law. */
  datatype Ledger = Ledger(commanded: Vec, delivered: Vec, backlog: Vec, overflow: Vec,
                           widthCut: Vec, noField: Vec, lost: Vec)

  datatype State = State(pending: Vec, threads: seq<Local>, book: Ledger)

  datatype Action =
    | Move(dx: int, dy: int, wheel: int)
    | Load
    | CompareExchange
    | AddsDone
    | Begin(role: Role)
    | Take(axis: Axis)
    | PlanStep
    | Skip
    | Post(buttons: byte)
    | Refuse
    | MergeStep

  ghost predicate RoleOk(r: Role) {
    && Accepted(r.desc)
    && match r
       case Tick(desc) => ParseDescriptor(desc).Usable()
       case Merge(desc, report) =>
         var d := ParseDescriptor(desc);
         var found := LayoutForReport(d, d.Usable(), report);
         found.Some? && Admits(found.value.lay, |found.value.body|)
  }

  function StepVec(st: InjectStep): Vec { Vec(st.x.step, st.y.step, st.wheel.step) }

  function RestAdds(st: InjectStep): seq<Add> {
    (if st.x.rest != 0 then [MakeAdd(X, st.x.rest)] else [])
    + (if st.y.rest != 0 then [MakeAdd(Y, st.y.rest)] else [])
    + (if st.wheel.rest != 0 then [MakeAdd(W, st.wheel.rest)] else [])
  }

  function GiveBack(st: InjectStep): seq<Add> {
    [MakeAdd(X, st.x.step), MakeAdd(Y, st.y.step), MakeAdd(W, st.wheel.step)]
  }

  /** The displacement the host reads out of a report. */
  function Decoded(d: Descriptor, report: seq<byte>): Vec
    requires |d.layouts| == MAX_REPORT_ID
  {
    match LayoutForReport(d, d.Usable(), report)
    case None => ZERO
    case Some(loc) =>
      Vec(if loc.lay.HasXY() then ReadSigned(loc.body, loc.lay.x).GetOr(0) else 0,
          if loc.lay.HasXY() then ReadSigned(loc.body, loc.lay.y).GetOr(0) else 0,
          if loc.lay.wheel.present then ReadSigned(loc.body, loc.lay.wheel).GetOr(0) else 0)
  }

  function MergeLocated(r: Role): Option<Located> {
    if r.Merge? then LayoutForReport(ParseDescriptor(r.desc), ParseDescriptor(r.desc).Usable(), r.report) else None
  }

  ghost predicate Enabled(s: State, t: nat, a: Action) {
    && t < |s.threads|
    && var l := s.threads[t];
       match a
       case Move(_, _, _) => l.Idle?
       case Load => l.Adding? && l.todo != []
       case CompareExchange => l.Adding? && l.todo != [] && l.seen == Some(s.pending.At(l.todo[0].axis))
       case AddsDone => l.Adding? && l.todo == []
       case Begin(role) => l.Idle? && RoleOk(role)
       case Take(axis) =>
         l.Taking? && (match axis case X => l.gotX.None? case Y => l.gotY.None? case W => l.gotW.None?)
       case PlanStep => l.Taking? && l.gotX.Some? && l.gotY.Some? && l.gotW.Some?
       case Skip => l.Deciding? && l.role.Tick? && StepVec(l.step) == ZERO
       case Post(buttons) =>
         l.Deciding? && l.role.Tick? && BuildReport(ParseDescriptor(l.role.desc), buttons, l.step, REPORT_CAP).Some?
       case Refuse => l.Deciding? && l.role.Tick?
       case MergeStep => l.Deciding? && l.role.Merge? && MergeLocated(l.role).Some?
  }

  function SetThread(s: State, t: nat, l: Local): State
    requires t < |s.threads|
  {
    s.(threads := s.threads[t := l])
  }

  /** The rest of an add_pending run once its first compare-exchange has succeeded. */
  function AfterCas(s: State, t: nat, l: Local): State
    requires t < |s.threads| && l.Adding? && l.todo != []
  {
    var add := l.todo[0];
    var sum := s.pending.At(add.axis) + add.delta;
    var kept := Saturate(sum, PENDING_LIMIT);
    SetThread(s, t, l.(todo := l.todo[1..], seen := None))
    .(pending := s.pending.With(add.axis, kept),
      book := s.book.(overflow := s.book.overflow.Plus(Unit(add.axis, sum - kept))))
  }

  function AfterTake(s: State, t: nat, l: Local, axis: Axis): State
    requires t < |s.threads| && l.Taking?
  {
    var got := Some(s.pending.At(axis));
    SetThread(s, t, match axis
                    case X => l.(gotX := got)
                    case Y => l.(gotY := got)
                    case W => l.(gotW := got))
    .(pending := s.pending.With(axis, 0))
  }

  function AfterPlan(s: State, t: nat, l: Local): State
    requires t < |s.threads| && l.Taking? && l.gotX.Some? && l.gotY.Some? && l.gotW.Some?
  {
    var st := Plan(DEFAULT_CONFIG, l.gotX.value, l.gotY.value, l.gotW.value);
    SetThread(s, t, Adding(RestAdds(st), None, Decide(l.role, st)))
    .(book := s.book.(backlog := s.book.backlog.Plus(Vec(st.x.dropped, st.y.dropped, st.wheel.dropped))))
  }

  function AfterPost(s: State, t: nat, l: Local, buttons: byte): State
    requires t < |s.threads| && l.Deciding? && l.role.Tick?
    requires BuildReport(ParseDescriptor(l.role.desc), buttons, l.step, REPORT_CAP).Some?
  {
    var d := ParseDescriptor(l.role.desc);
    var got := Decoded(d, BuildReport(d, buttons, l.step, REPORT_CAP).value);
    SetThread(s, t, Idle)
    .(book := s.book.(delivered := s.book.delivered.Plus(got),
                      noField := s.book.noField.Plus(StepVec(l.step).Minus(got))))
  }

  /** What a merge put into the report it was given. */
  function Gained(before: seq<byte>, after: seq<byte>, lay: Layout, wheelWritten: bool): Vec {
    Vec(Gain(before, after, lay.x), Gain(before, after, lay.y), if wheelWritten then Gain(before, after, lay.wheel) else 0)
  }

  function AfterMerge(s: State, t: nat, l: Local): State
    requires t < |s.threads| && l.Deciding? && MergeLocated(l.role).Some?
  {
    var loc, step := MergeLocated(l.role).value, StepVec(l.step);
    match MergeBody(loc.body, loc.lay, step.x, step.y, step.w)
    case NoMotion => SetThread(s, t, Adding([MakeAdd(W, step.w)], None, Done))
    case Stuck => SetThread(s, t, Idle).(book := s.book.(lost := s.book.lost.Plus(step)))
    case Written(after, wheelWritten) =>
      var got := Gained(loc.body, after, loc.lay, wheelWritten);
      var spent := if wheelWritten then step else step.(w := 0);
      SetThread(s, t, if wheelWritten || step.w == 0 then Idle else Adding([MakeAdd(W, step.w)], None, Done))
      .(book := s.book.(delivered := s.book.delivered.Plus(got),
                        widthCut := s.book.widthCut.Plus(spent.Minus(got))))
  }

  ghost function Apply(s: State, t: nat, a: Action): State
    requires Enabled(s, t, a)
  {
    var l := s.threads[t];
    match a
    case Move(dx, dy, wheel) =>
      var adds := [MakeAdd(X, dx), MakeAdd(Y, dy), MakeAdd(W, wheel)];
      SetThread(s, t, Adding(adds, None, Done))
      .(book := s.book.(commanded := s.book.commanded.Plus(Vec(adds[0].delta, adds[1].delta, adds[2].delta))))
    case Load => SetThread(s, t, l.(seen := Some(s.pending.At(l.todo[0].axis))))
    case CompareExchange => AfterCas(s, t, l)
    case AddsDone => SetThread(s, t, if l.then_.Done? then Idle else Deciding(l.then_.role, l.then_.step))
    case Begin(role) => SetThread(s, t, Taking(role, None, None, None))
    case Take(axis) => AfterTake(s, t, l, axis)
    case PlanStep => AfterPlan(s, t, l)
    case Skip => SetThread(s, t, Idle)
    case Post(buttons) => AfterPost(s, t, l, buttons)
    case Refuse => SetThread(s, t, Adding(GiveBack(l.step), None, Done))
    case MergeStep => AfterMerge(s, t, l)
  }

  // ---------------------------------------------------------------- runs

  datatype Event = Event(thread: nat, action: Action)

  ghost predicate CanRun(s: State, es: seq<Event>)
    decreases |es|
  {
    es == [] || (Enabled(s, es[0].thread, es[0].action)
                 && CanRun(Apply(s, es[0].thread, es[0].action), es[1..]))
  }

  ghost function Run(s: State, es: seq<Event>): State
    requires CanRun(s, es)
    decreases |es|
  {
    if es == [] then s else Run(Apply(s, es[0].thread, es[0].action), es[1..])
  }

  ghost function Start(n: nat): State {
    State.State(ZERO, seq(n, _ => Idle), Ledger(ZERO, ZERO, ZERO, ZERO, ZERO, ZERO, ZERO))
  }
}
