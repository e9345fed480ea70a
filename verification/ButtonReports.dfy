/** What the host reads of a published button mask: the reports behind the publication
    protocol, and the mice whose buttons no injected report carries. */
module ButtonReports {
  import opened Bytes
  import opened HidLayout
  import opened HidInvariant
  import opened HidCodec
  import opened InjectClock
  import opened ReportRoundTrip
  import opened Wrappers
  import B = ButtonPublication

  /** A report built from this mask, with some step. */
  ghost predicate BuiltFor(desc: seq<byte>, report: seq<byte>, mask: byte) {
    exists st :: BuildReport(ParseDescriptor(desc), mask, st, REPORT_CAP) == Some(report)
  }

  /** Every report the sink accepts was built, for the injecting interface's descriptor,
      from the mask the tick read. */
  ghost predicate PostsBuilt(s: B.State, run: seq<B.Action>, desc: seq<byte>)
    requires B.CanRun(s, run)
    decreases |run|
  {
    run == []
    || ((run[0].PostAccepted? ==> BuiltFor(desc, run[0].report, s.ticker.mask as int))
        && PostsBuilt(B.Apply(s, run[0]), run[1..], desc))
  }

  ghost predicate PostedBuilt(s: B.State, desc: seq<byte>) {
    s.posted.Some? ==> BuiltFor(desc, s.posted.value.report, s.posted.value.mask as int)
  }

  lemma {:induction false} RunPostedBuilt(s: B.State, run: seq<B.Action>, desc: seq<byte>)
    requires B.CanRun(s, run) && PostsBuilt(s, run, desc) && PostedBuilt(s, desc)
    ensures PostedBuilt(B.Run(s, run), desc)
    decreases |run|
  {
    hide BuiltFor;
    if run != [] {
      RunPostedBuilt(B.Apply(s, run[0]), run[1..], desc);
    }
  }

  /** What the host learns of the buttons from a report: nothing when its layout has no
      buttons field. */
  function HostButtons(desc: seq<byte>, report: seq<byte>): Option<nat> {
    var d := ParseDescriptor(desc);
    match LayoutForReport(d, d.Usable(), report)
    case None => None
    case Some(loc) => ReadMask(loc.body, loc.lay.buttons)
  }

  ghost predicate CarriesButtons(desc: seq<byte>) {
    SelectedLayout(ParseDescriptor(desc)).Some? && SelectedLayout(ParseDescriptor(desc)).value.HasButtons()
  }

  /** The host reads the mask, cut to the field's width, exactly when the selected layout
      has a buttons field; otherwise it reads nothing, and the very same report is built
      from any other mask. */
  lemma ReportButtons(desc: seq<byte>, mask: byte, st: InjectStep)
    requires Accepted(desc) && BuildReport(ParseDescriptor(desc), mask, st, REPORT_CAP).Some?
    ensures var d := ParseDescriptor(desc);
            var report := BuildReport(d, mask, st, REPORT_CAP).value;
            && SelectedLayout(d).Some?
            && (HostButtons(desc, report).Some? <==> CarriesButtons(desc))
            && (CarriesButtons(desc) ==>
                  SelectedLayout(d).value.buttons.bitSize > 0
                  && HostButtons(desc, report) == Some(mask % Pow2(SelectedLayout(d).value.buttons.bitSize)))
            && (!CarriesButtons(desc) ==> forall other: byte :: BuildReport(d, other, st, REPORT_CAP) == Some(report))
  {
    hide WellFormed;
    hide Accepted;
    ParserInvariant(desc);
    BuildThenDecode(ParseDescriptor(desc), mask, st, REPORT_CAP);
    if !CarriesButtons(desc) {
      MaskUnused(ParseDescriptor(desc), mask, st);
    }
    hide BuildReport;
  }

  lemma MaskUnused(d: Descriptor, mask: byte, st: InjectStep)
    requires BuildReport(d, mask, st, REPORT_CAP).Some? && !SelectedLayout(d).value.HasButtons()
    ensures forall other: byte :: BuildReport(d, other, st, REPORT_CAP) == BuildReport(d, mask, st, REPORT_CAP)
  {
    hide FillXY;
    hide FillWheel;
    var lay := SelectedLayout(d).value;
    forall other: byte
      ensures BuildReport(d, other, st, REPORT_CAP) == BuildReport(d, mask, st, REPORT_CAP)
    {
      assert FillBody(Zeros(lay.TotalBytes()), lay, other, st) == FillBody(Zeros(lay.TotalBytes()), lay, mask, st);
    }
  }

  /** Publication, all the way to the host: in every run whose commands are announced, with
      the tick thread up to date and no command between store and bump, the host reads the
      current mask out of the last accepted report exactly when the selected layout has a
      buttons field. When it has none, that report says nothing of the mask. */
  lemma ButtonsReachHost(n: nat, run: seq<B.Action>, desc: seq<byte>)
    requires Accepted(desc) && B.CanRun(B.Start(n), run) && B.NoPhysical(run)
    requires PostsBuilt(B.Start(n), run, desc)
    requires var s := B.Run(B.Start(n), run); B.UpToDate(s) && B.Settled(s) && s.buttonSeq > s.started
    ensures var s, d := B.Run(B.Start(n), run), ParseDescriptor(desc);
            && s.posted.Some? && SelectedLayout(d).Some?
            && var report := s.posted.value.report;
               && (HostButtons(desc, report).Some? <==> CarriesButtons(desc))
               && (CarriesButtons(desc) ==>
                     SelectedLayout(d).value.buttons.bitSize > 0
                     && HostButtons(desc, report)
                        == Some(s.mask as int % Pow2(SelectedLayout(d).value.buttons.bitSize)))
               && (!CarriesButtons(desc) ==> forall other: byte :: BuiltFor(desc, report, other))
  {
    hide Accepted;
    hide BuildReport;
    hide HostButtons;
    hide CarriesButtons;
    B.Published(n, run);
    RunPostedBuilt(B.Start(n), run, desc);
    var s := B.Run(B.Start(n), run);
    var mask, report := s.mask as int, s.posted.value.report;
    var st :| BuildReport(ParseDescriptor(desc), mask, st, REPORT_CAP) == Some(report);
    ReportButtons(desc, mask, st);
    if !CarriesButtons(desc) {
      forall other: byte ensures BuiltFor(desc, report, other) {
        assert BuildReport(ParseDescriptor(desc), other, st, REPORT_CAP) == Some(report);
      }
    }
  }
}
