/** What commands put into the books of the accumulators, and what the limits take out again,
    read off the command and the state it meets. */
module PendingCommands {
  import opened PendingProtocol
  import opened InjectClock
  import C = PendingConservation
  import T = TickDrain
  import opened Wrappers

  type State = PendingProtocol.State

  /** v cut to the range from -n to n. */
  function CutTo(v: int, n: int): int {
    if v > n then n else if v < -n then -n else v
  }

  /** A command's own displacement on an axis. */
  function Argument(act: Action, a: Axis): int {
    match act
    case Move(dx, dy, wheel) => (match a case X => dx case Y => dy case W => wheel)
    case _ => 0
  }

  /** What a compare-exchange cannot keep: the accumulators hold up to 2^20 either way. */
  ghost function SpilledBy(s: State, t: nat, act: Action, a: Axis): int
    requires Enabled(s, t, act)
  {
    if act.CompareExchange? && s.threads[t].todo[0].axis == a then
      var sum := s.pending.At(a) + s.threads[t].todo[0].delta;
      sum - CutTo(sum, 1048576)
    else 0
  }

  /** What a plan drops of the counts taken: all beyond one step and the backlog it may leave,
      96 and 768 on X and Y, one and one on the wheel. */
  ghost function DroppedBy(s: State, t: nat, act: Action, a: Axis): int
    requires Enabled(s, t, act)
  {
    if act.PlanStep? then
      var l := s.threads[t];
      match a
      case X => l.gotX.value - CutTo(l.gotX.value, 864)
      case Y => l.gotY.value - CutTo(l.gotY.value, 864)
      case W => l.gotW.value - CutTo(l.gotW.value, 2)
    else 0
  }

  /** Only a command commands: every axis by its own argument, at most 32767 either way. */
  lemma StepCommands(s: State, t: nat, act: Action, a: Axis)
    requires Enabled(s, t, act)
    ensures var b, c := s.book, Apply(s, t, act).book;
            && c.commanded.At(a) == b.commanded.At(a) + CutTo(Argument(act, a), 32767)
            && c.overflow.At(a) == b.overflow.At(a) + SpilledBy(s, t, act, a)
            && c.backlog.At(a) == b.backlog.At(a) + DroppedBy(s, t, act, a)
  {
    hide RoleOk;
    hide Decoded;
    hide Gained;
    hide MergeLocated;
    hide BuildReport;
    if act.PlanStep? {
      var l := s.threads[t];
      PlanDrops(l.gotX.value, l.gotY.value, l.gotW.value);
      hide Plan;
    }
  }

  lemma PlanDrops(dx: int, dy: int, w: int)
    ensures var st := Plan(DEFAULT_CONFIG, dx, dy, w);
            st.x.dropped == dx - CutTo(dx, 864) && st.y.dropped == dy - CutTo(dy, 864) && st.wheel.dropped == w - CutTo(w, 2)
  {
  }

  // ------------------------------------------------------------ whole runs

  /** What a run commands on an axis, from the list of its events alone. */
  function Commanded(es: seq<Event>, a: Axis): int {
    if es == [] then 0 else CutTo(Argument(es[0].action, a), 32767) + Commanded(es[1..], a)
  }

  ghost function TotalSpilled(s: State, es: seq<Event>, a: Axis): int
    requires CanRun(s, es)
    decreases |es|
  {
    if es == [] then 0
    else SpilledBy(s, es[0].thread, es[0].action, a) + TotalSpilled(Apply(s, es[0].thread, es[0].action), es[1..], a)
  }

  ghost function TotalDropped(s: State, es: seq<Event>, a: Axis): int
    requires CanRun(s, es)
    decreases |es|
  {
    if es == [] then 0
    else DroppedBy(s, es[0].thread, es[0].action, a) + TotalDropped(Apply(s, es[0].thread, es[0].action), es[1..], a)
  }

  lemma {:induction false} RunCommands(s: State, es: seq<Event>, a: Axis)
    requires CanRun(s, es)
    ensures var b, c := s.book, Run(s, es).book;
            && c.commanded.At(a) == b.commanded.At(a) + Commanded(es, a)
            && c.overflow.At(a) == b.overflow.At(a) + TotalSpilled(s, es, a)
            && c.backlog.At(a) == b.backlog.At(a) + TotalDropped(s, es, a)
    decreases |es|
  {
    hide Apply;
    hide Enabled;
    hide SpilledBy;
    hide DroppedBy;
    hide CutTo;
    if es != [] {
      StepCommands(s, es[0].thread, es[0].action, a);
      RunCommands(Apply(s, es[0].thread, es[0].action), es[1..], a);
    }
  }

  // ------------------------------------------------------------ one undisturbed command

  function MoveEvents(t: nat, dx: int, dy: int, wheel: int): seq<Event> {
    [Event(t, Move(dx, dy, wheel))] + T.AddEvents(t, 3) + [Event(t, AddsDone)]
  }

  /** Three adds, one an axis, each within the limit of a command. */
  lemma ThreeAdds(p: Vec, dx: int, dy: int, wheel: int)
    ensures T.AfterAdds(p, [MakeAdd(X, dx), MakeAdd(Y, dy), MakeAdd(W, wheel)])
            == Vec(CutTo(p.x + CutTo(dx, 32767), 1048576), CutTo(p.y + CutTo(dy, 32767), 1048576),
                   CutTo(p.w + CutTo(wheel, 32767), 1048576))
  {
    var x, y, w := MakeAdd(X, dx), MakeAdd(Y, dy), MakeAdd(W, wheel);
    assert [x, y, w][1..] == [y, w] && [y, w][1..] == [w] && [w][1..] == [];
    var p1 := p.(x := CutTo(p.x + CutTo(dx, 32767), 1048576));
    var p2 := p1.(y := CutTo(p.y + CutTo(dy, 32767), 1048576));
    assert T.AfterAdds(p, [x, y, w]) == T.AfterAdds(p1, [y, w]);
    assert T.AfterAdds(p1, [y, w]) == T.AfterAdds(p2, [w]);
  }

  lemma MoveBegins(s: State, t: nat, dx: int, dy: int, wheel: int)
    requires t < |s.threads| && s.threads[t] == Idle
    ensures var first, adds := [Event(t, Move(dx, dy, wheel))], [MakeAdd(X, dx), MakeAdd(Y, dy), MakeAdd(W, wheel)];
            CanRun(s, first) && T.Alone(s, Run(s, first), t, Adding(adds, None, Done), s.pending)
  {
    assert CanRun(s, []);
    T.RunSnoc(s, [], Event(t, Move(dx, dy, wheel)));
    assert [] + [Event(t, Move(dx, dy, wheel))] == [Event(t, Move(dx, dy, wheel))];
    hide MakeAdd;
  }

  /** A command nobody interferes with: the thread is idle again, and every accumulator has
      moved by the command's own argument for its axis, within both limits. */
  lemma MoveAlone(s: State, t: nat, dx: int, dy: int, wheel: int)
    requires t < |s.threads| && s.threads[t] == Idle
    ensures var es := MoveEvents(t, dx, dy, wheel);
            && CanRun(s, es)
            && Run(s, es).threads == s.threads
            && Run(s, es).pending == Vec(CutTo(s.pending.x + CutTo(dx, 32767), 1048576),
                                         CutTo(s.pending.y + CutTo(dy, 32767), 1048576),
                                         CutTo(s.pending.w + CutTo(wheel, 32767), 1048576))
            && Run(s, es).book.delivered == s.book.delivered
  {
    hide T.AddEvents;
    hide T.AfterAdds;
    hide CutTo;
    hide MakeAdd;
    hide CanRun;
    hide Run;
    var first, middle := [Event(t, Move(dx, dy, wheel))], T.AddEvents(t, 3);
    MoveBegins(s, t, dx, dy, wheel);
    T.AllAdds(Run(s, first), t);
    T.RunAppend(s, first, middle);
    ThreeAdds(s.pending, dx, dy, wheel);
    T.RunSnoc(s, first + middle, Event(t, AddsDone));
    assert s.threads[t := Idle] == s.threads;
  }
}
