/** Publishing injected button changes: command connections store a mask and then bump
    a sequence number; the tick thread reads the number first and the mask second. */
module ButtonPublication {
  import opened Bytes
  import opened Wrappers

  type Mask = bv8

  datatype Press = Down | Up | Click

  function Bit(button: nat): Mask
    requires 1 <= button <= 8
  {
    1 << (button - 1)
  }

  function With(m: Mask, bit: Mask): Mask { m | bit }

  function Without(m: Mask, bit: Mask): Mask { m & !bit }

  /** BUTTON_CMD: the mask a connection is about to store. */
  function NextMask(cur: Mask, button: nat, press: Press): Mask
    requires 1 <= button <= 8
  {
    if press.Up? then Without(cur, Bit(button)) else With(cur, Bit(button))
  }

  predicate Pressed(m: Mask, button: nat)
    requires 1 <= button <= 8
  {
    m & Bit(button) != 0
  }

  lemma BitsApart(a: nat, b: nat)
    requires 1 <= a <= 8 && 1 <= b <= 8
    ensures Bit(a) != 0 && (a != b ==> Bit(a) & Bit(b) == 0)
  {
  }

  /** The protocol's bits, the left button's first. */
  lemma BitsAre()
    ensures Bit(1) == 0x01 && Bit(2) == 0x02 && Bit(3) == 0x04 && Bit(4) == 0x08
    ensures Bit(5) == 0x10 && Bit(6) == 0x20 && Bit(7) == 0x40 && Bit(8) == 0x80
  {
  }

  /** A command changes its own button and no other. A click presses like a press and,
      as far as the mask goes, never releases. */
  lemma CommandMovesOneButton(cur: Mask, button: nat, press: Press, other: nat)
    requires 1 <= button <= 8 && 1 <= other <= 8
    ensures Pressed(NextMask(cur, button, press), other)
            <==> if other == button then !press.Up? else Pressed(cur, other)
  {
    BitsApart(button, other);
    hide Bit;
    hide With;
    hide Without;
    MaskAlgebra(cur, Bit(button), Bit(other));
  }

  lemma MaskAlgebra(cur: Mask, x: Mask, y: Mask)
    ensures With(cur, x) & x == x && Without(cur, x) & x == 0
    ensures x & y == 0 ==> With(cur, x) & y == cur & y && Without(cur, x) & y == cur & y
  {
  }

  lemma WithThenWithout(m: Mask, bit: Mask)
    ensures Without(With(m, bit), bit) == Without(m, bit) && With(Without(m, bit), bit) == With(m, bit)
  {
  }

  // ------------------------------------------------------------ the machine

  /** A command connection between its atomic operations on the mask and the number. */
  datatype Connection = Ready | Loaded(value: Mask, button: nat, press: Press) | Stored

  /** The tick thread between its atomic operations. */
  datatype Ticker =
    | NotStarted
    | Asleep
    | SawSeq(number: nat)
    | SawMask(number: nat, mask: Mask)

  /** A report the sink accepted, and the mask its builder was given. */
  datatype Posted = Posted(mask: Mask, report: seq<byte>)

  /** started is the number the tick thread found when it began. */
  datatype State = State(mask: Mask, buttonSeq: nat, conns: seq<Connection>, ticker: Ticker,
                         started: nat, lastSeq: nat, posted: Option<Posted>)

  datatype Action =
    | LoadMask(conn: nat, button: nat, press: Press)
    | StoreMask(conn: nat)
    | Bump(conn: nat)
    | StartTicker
    | ReadSeq
    | GiveUp                // any of the tick's early exits
    | ReadMask
    | PostAccepted(report: seq<byte>)
    | PostFailed
    | PhysicalReport(mask: Mask)

  predicate Enabled(s: State, a: Action) {
    match a
    case LoadMask(c, button, _) => c < |s.conns| && s.conns[c].Ready? && 1 <= button <= 8
    case StoreMask(c) => c < |s.conns| && s.conns[c].Loaded? && 1 <= s.conns[c].button <= 8
    case Bump(c) => c < |s.conns| && s.conns[c].Stored?
    case StartTicker => s.ticker.NotStarted?
    case ReadSeq => s.ticker.Asleep?
    case GiveUp => s.ticker.SawSeq?
    case ReadMask => s.ticker.SawSeq?
    case PostAccepted(_) => s.ticker.SawMask?
    case PostFailed => s.ticker.SawMask?
    case PhysicalReport(_) => true
  }

  function Apply(s: State, a: Action): State
    requires Enabled(s, a)
  {
    match a
    case LoadMask(c, button, press) => s.(conns := s.conns[c := Loaded(s.mask, button, press)])
    case StoreMask(c) =>
      var l := s.conns[c];
      s.(mask := NextMask(l.value, l.button, l.press), conns := s.conns[c := Stored])
    case Bump(c) => s.(buttonSeq := s.buttonSeq + 1, conns := s.conns[c := Ready])
    case StartTicker => s.(ticker := Asleep, started := s.buttonSeq, lastSeq := s.buttonSeq)
    case ReadSeq => s.(ticker := SawSeq(s.buttonSeq))
    case GiveUp => s.(ticker := Asleep)
    case ReadMask => s.(ticker := SawMask(s.ticker.number, s.mask))
    case PostAccepted(report) =>
      s.(ticker := Asleep, lastSeq := s.ticker.number, posted := Some(Posted(s.ticker.mask, report)))
    case PostFailed => s.(ticker := Asleep)
    case PhysicalReport(mask) => s.(mask := mask)
  }

  predicate CanRun(s: State, run: seq<Action>)
    decreases |run|
  {
    run == [] || (Enabled(s, run[0]) && CanRun(Apply(s, run[0]), run[1..]))
  }

  function Run(s: State, run: seq<Action>): State
    requires CanRun(s, run)
    decreases |run|
  {
    if run == [] then s else Run(Apply(s, run[0]), run[1..])
  }

  function Start(n: nat): State {
    State(0, 0, seq(n, _ => Ready), NotStarted, 0, 0, None)
  }

  predicate NoPhysical(run: seq<Action>) {
    forall a <- run :: !a.PhysicalReport?
  }

  /** No connection is between its store and its bump. */
  predicate Settled(s: State) {
    forall c :: 0 <= c < |s.conns| ==> !s.conns[c].Stored?
  }

  /** The tick thread has nothing to announce. */
  predicate UpToDate(s: State) {
    !s.ticker.NotStarted? && s.lastSeq == s.buttonSeq
  }

  // ------------------------------------------------------------ publication

  predicate Inv(s: State) {
    && s.lastSeq <= s.buttonSeq
    && (s.ticker.SawSeq? || s.ticker.SawMask? ==> s.lastSeq <= s.ticker.number <= s.buttonSeq)
    && (s.ticker.SawMask? && s.ticker.number == s.buttonSeq && Settled(s) ==> s.ticker.mask == s.mask)
    && (UpToDate(s) && Settled(s) && s.posted.Some? ==> s.posted.value.mask == s.mask)
    && (s.ticker.NotStarted? ==> s.posted.None?)
    && (!s.ticker.NotStarted? ==> s.started <= s.lastSeq && (s.lastSeq > s.started ==> s.posted.Some?))
  }

  lemma StepKeepsInv(s: State, a: Action)
    requires Inv(s) && Enabled(s, a) && !a.PhysicalReport?
    ensures Inv(Apply(s, a))
  {
    hide NextMask;
    var t := Apply(s, a);
    match a
    case StoreMask(c) =>
      assert t.conns[c].Stored?;
      assert !Settled(t);
    case LoadMask(c, _, _) =>
      if Settled(t) {
        assert forall i :: 0 <= i < |s.conns| && i != c ==> s.conns[i] == t.conns[i];
        assert Settled(s);
      }
    case _ =>
  }

  lemma {:induction false} RunKeepsInv(s: State, run: seq<Action>)
    requires Inv(s) && CanRun(s, run) && NoPhysical(run)
    ensures Inv(Run(s, run))
    decreases |run|
  {
    hide Inv;
    if run != [] {
      StepKeepsInv(s, run[0]);
      RunKeepsInv(Apply(s, run[0]), run[1..]);
    }
  }

  /** Any number of command connections, every interleaving: once a command has been
      announced since the tick thread began, the thread is up to date and no command is
      between its store and its bump, a report has been accepted, and the last one was
      built from the mask that is current now. */
  lemma Published(n: nat, run: seq<Action>)
    requires CanRun(Start(n), run) && NoPhysical(run)
    ensures var s := Run(Start(n), run);
            UpToDate(s) && Settled(s) && s.buttonSeq > s.started ==>
              s.posted.Some? && s.posted.value.mask == s.mask
  {
    RunKeepsInv(Start(n), run);
  }

  /** A post that fails, or a tick that gives up, leaves the announcement pending. */
  lemma FailureKeepsPending(s: State, a: Action)
    requires Inv(s) && Enabled(s, a) && (a.PostFailed? || a.GiveUp?)
    ensures UpToDate(Apply(s, a)) <==> UpToDate(s)
    ensures Apply(s, a).posted == s.posted && Apply(s, a).mask == s.mask
  {
  }

  // ------------------------------------------------------------ early commands

  /** The commands a run announces. */
  function Bumps(run: seq<Action>): nat {
    if run == [] then 0 else (if run[0].Bump? then 1 else 0) + Bumps(run[1..])
  }

  /** Those it announces before the tick thread begins. */
  function EarlyBumps(run: seq<Action>): nat {
    if run == [] || run[0].StartTicker? then 0 else (if run[0].Bump? then 1 else 0) + EarlyBumps(run[1..])
  }

  function Posts(run: seq<Action>): nat {
    if run == [] then 0 else (if run[0].PostAccepted? then 1 else 0) + Posts(run[1..])
  }

  lemma {:induction false} RunningCounts(s: State, run: seq<Action>)
    requires CanRun(s, run) && !s.ticker.NotStarted?
    ensures var t := Run(s, run);
            && !t.ticker.NotStarted? && t.started == s.started && t.buttonSeq == s.buttonSeq + Bumps(run)
            && (if Posts(run) == 0 then t.lastSeq == s.lastSeq && t.posted == s.posted else t.posted.Some?)
    decreases |run|
  {
    hide NextMask;
    if run != [] {
      RunningCounts(Apply(s, run[0]), run[1..]);
    }
  }

  lemma {:induction false} WaitingCounts(s: State, run: seq<Action>)
    requires CanRun(s, run) && s.ticker.NotStarted? && s.posted.None?
    ensures var t := Run(s, run);
            && t.buttonSeq == s.buttonSeq + Bumps(run)
            && (!t.ticker.NotStarted? ==>
                  && t.started == s.buttonSeq + EarlyBumps(run)
                  && (if Posts(run) == 0 then t.lastSeq == t.started && t.posted.None? else t.posted.Some?))
    decreases |run|
  {
    hide NextMask;
    if run != [] {
      if run[0].StartTicker? {
        RunningCounts(Apply(s, run[0]), run[1..]);
      } else {
        WaitingCounts(Apply(s, run[0]), run[1..]);
      }
    }
  }

  /** Which commands go unannounced, for every run: the tick thread considers itself up to
      date without ever having posted exactly when nothing was posted and every command
      was bumped before the thread began. */
  lemma SilentExactly(n: nat, run: seq<Action>)
    requires CanRun(Start(n), run)
    ensures var s := Run(Start(n), run);
            && s.buttonSeq == Bumps(run)
            && (!s.ticker.NotStarted? ==>
                  && s.started == EarlyBumps(run)
                  && (UpToDate(s) && s.posted.None? <==> Posts(run) == 0 && Bumps(run) == EarlyBumps(run)))
  {
    WaitingCounts(Start(n), run);
  }

  /** Such a run: a press that completes before the thread begins. The mask holds it, no
      report was posted, and the thread has nothing to announce. */
  lemma EarlyCommandIsNotAnnounced()
    ensures var run := [LoadMask(0, 1, Down), StoreMask(0), Bump(0), StartTicker];
            && CanRun(Start(1), run)
            && var s := Run(Start(1), run);
               s.mask == 1 && UpToDate(s) && Settled(s) && s.posted.None?
  {
    var s0 := Start(1);
    var s1 := Apply(s0, LoadMask(0, 1, Down));
    var s2 := Apply(s1, StoreMask(0));
    var s3 := Apply(s2, Bump(0));
    var s4 := Apply(s3, StartTicker);
    RunSteps(s0, LoadMask(0, 1, Down), [StoreMask(0), Bump(0), StartTicker]);
    RunSteps(s1, StoreMask(0), [Bump(0), StartTicker]);
    RunSteps(s2, Bump(0), [StartTicker]);
    RunSteps(s3, StartTicker, []);
  }

  lemma RunSteps(s: State, a: Action, rest: seq<Action>)
    requires Enabled(s, a)
    ensures CanRun(s, [a] + rest) <==> CanRun(Apply(s, a), rest)
    ensures CanRun(s, [a] + rest) ==> Run(s, [a] + rest) == Run(Apply(s, a), rest)
  {
    assert ([a] + rest)[1..] == rest;
  }

  // ------------------------------------------------------------ what the mask holds

  datatype Command = Command(button: nat, press: Press)

  function Fold(m: Mask, cmds: seq<Command>): Mask
    requires forall c <- cmds :: 1 <= c.button <= 8
    decreases |cmds|
  {
    if cmds == [] then m else Fold(NextMask(m, cmds[0].button, cmds[0].press), cmds[1..])
  }

  /** The commands whose masks a run from s stores, in the order of the stores. */
  function StoredCommands(s: State, run: seq<Action>): (cmds: seq<Command>)
    requires CanRun(s, run)
    ensures forall c <- cmds :: 1 <= c.button <= 8
    decreases |run|
  {
    if run == [] then []
    else
      var rest := StoredCommands(Apply(s, run[0]), run[1..]);
      if run[0].StoreMask? then [Command(s.conns[run[0].conn].button, s.conns[run[0].conn].press)] + rest else rest
  }

  /** One store does what its command asks, on the mask as it then is, exactly when the
      mask that was loaded agrees with it on every other button. */
  lemma StoreExact(s: State, c: nat)
    requires Enabled(s, StoreMask(c))
    ensures var l := s.conns[c];
            Apply(s, StoreMask(c)).mask == NextMask(s.mask, l.button, l.press)
            <==> Without(l.value, Bit(l.button)) == Without(s.mask, Bit(l.button))
  {
    hide Bit;
    hide With;
    hide Without;
    var l := s.conns[c];
    WithThenWithout(l.value, Bit(l.button));
    WithThenWithout(s.mask, Bit(l.button));
  }

  /** Every store follows a load of its own connection with no other store in between;
      open holds the connections that loaded since the last store. */
  predicate Exclusive(run: seq<Action>, open: set<nat>) {
    if run == [] then true
    else if run[0].LoadMask? then Exclusive(run[1..], open + {run[0].conn})
    else if run[0].StoreMask? then run[0].conn in open && Exclusive(run[1..], {})
    else Exclusive(run[1..], open)
  }

  lemma {:induction false} ExclusiveFolds(s: State, run: seq<Action>, open: set<nat>)
    requires CanRun(s, run) && NoPhysical(run) && Exclusive(run, open)
    requires forall c :: c in open ==> c < |s.conns| && s.conns[c].Loaded? && s.conns[c].value == s.mask
    ensures Run(s, run).mask == Fold(s.mask, StoredCommands(s, run))
    decreases |run|
  {
    hide NextMask;
    if run != [] {
      var t := Apply(s, run[0]);
      var next := if run[0].LoadMask? then open + {run[0].conn} else if run[0].StoreMask? then {} else open;
      ExclusiveFolds(t, run[1..], next);
      if run[0].StoreMask? {
        var rest := StoredCommands(t, run[1..]);
        var cmd := Command(s.conns[run[0].conn].button, s.conns[run[0].conn].press);
        assert ([cmd] + rest)[1..] == rest;
      }
    }
  }

  /** Any number of connections: while no store falls between another connection's load and
      its store, the mask is the fold of the commands in the order of their stores. */
  lemma MaskIsFold(n: nat, run: seq<Action>)
    requires CanRun(Start(n), run) && NoPhysical(run) && Exclusive(run, {})
    ensures Run(Start(n), run).mask == Fold(0, StoredCommands(Start(n), run))
  {
    ExclusiveFolds(Start(n), run, {});
  }

  lemma {:induction false} OneConnectionExclusive(s: State, run: seq<Action>, open: set<nat>)
    requires |s.conns| == 1 && CanRun(s, run) && (s.conns[0].Loaded? ==> 0 in open)
    ensures Exclusive(run, open)
    decreases |run|
  {
    hide NextMask;
    if run != [] {
      var next := if run[0].LoadMask? then open + {run[0].conn} else if run[0].StoreMask? then {} else open;
      OneConnectionExclusive(Apply(s, run[0]), run[1..], next);
    }
  }

  /** With one connection that is always so: once its commands are announced, the last
      accepted report was built from exactly the mask they ask for. */
  lemma PublishedCommands(run: seq<Action>)
    requires CanRun(Start(1), run) && NoPhysical(run)
    ensures var s := Run(Start(1), run);
            UpToDate(s) && Settled(s) && s.buttonSeq > s.started ==>
              s.posted.Some? && s.posted.value.mask == Fold(0, StoredCommands(Start(1), run))
  {
    Published(1, run);
    OneConnectionExclusive(Start(1), run, {});
    MaskIsFold(1, run);
  }

  /** Two connections can lose a press: both load the empty mask, both commands finish,
      and the mask holds only the second button. */
  lemma TwoConnectionsLoseAPress()
    ensures var run := [LoadMask(0, 1, Down), LoadMask(1, 2, Down), StoreMask(0), Bump(0), StoreMask(1), Bump(1)];
            CanRun(Start(2), run) && Settled(Run(Start(2), run)) && Run(Start(2), run).mask == 2
  {
    var s0 := Start(2);
    var s1 := Apply(s0, LoadMask(0, 1, Down));
    var s2 := Apply(s1, LoadMask(1, 2, Down));
    var s3 := Apply(s2, StoreMask(0));
    var s4 := Apply(s3, Bump(0));
    var s5 := Apply(s4, StoreMask(1));
    RunSteps(s0, LoadMask(0, 1, Down), [LoadMask(1, 2, Down), StoreMask(0), Bump(0), StoreMask(1), Bump(1)]);
    RunSteps(s1, LoadMask(1, 2, Down), [StoreMask(0), Bump(0), StoreMask(1), Bump(1)]);
    RunSteps(s2, StoreMask(0), [Bump(0), StoreMask(1), Bump(1)]);
    RunSteps(s3, Bump(0), [StoreMask(1), Bump(1)]);
    RunSteps(s4, StoreMask(1), [Bump(1)]);
    RunSteps(s5, Bump(1), []);
  }

  /** A physical report changes the mask without bumping the number, so an up-to-date
      thread's last report can be stale: it is, exactly when the new mask differs. */
  lemma PhysicalReportIsNotAnnounced(s: State, mask: Mask)
    requires Inv(s) && UpToDate(s) && Settled(s) && s.posted.Some?
    ensures var t := Apply(s, PhysicalReport(mask));
            UpToDate(t) && Settled(t) && (t.posted.value.mask == t.mask <==> mask == s.mask)
  {
  }
}
