# A model of the TTBOX mouse proxy and its companions

This project models the parts of the TTBOX repository whose correctness is an argument rather than a
reading, and proves that argument for every input, run or interleaving.

The centre is the USB mouse proxy. A mouse is plugged into the box, the box presents itself to a
computer as that mouse, and displacement computed elsewhere is added to what the hand does. The proxy
parses the mouse's HID report descriptor (Device Class Definition for HID 1.11, sections 6.2.2 and 8),
reads and writes fields of its reports, builds reports of its own on a one-millisecond clock, shares
accumulators between command, tick and report threads, keeps a ring of interrupt transfers in flight,
and assigns its own endpoints to those of the device, rewriting the descriptors that pass through.

Around it stand the controller that computes the displacement and the calibration that chooses its
parameters, and a few self-contained algorithms: the graph sort of the model converter, the plugin
manager's dependency check, the configuration codec of the control socket, the licence short code, the
web panel's configuration merge, the over-the-air updater and the motion-curve training.

Code that changes state step by step is modelled as classes and methods on arrays and fields, each proved
equal to a specification function; threads are modelled as state machines over their atomic operations;
the theorems are lemmas about those functions and machines.

| file | what it holds |
|---|---|
| Bytes, HidBits, RealArith, Wrappers | little-endian values, bit strings, products and quotients of reals, optional values |
| HidLayout, HidInvariant, HidDeclared | the descriptor parser, its layout invariant, its agreement with a plain list of declarations |
| HidItems, HidPrinted | printing the items of a descriptor and reading them back; descriptors as mice write them, and the layout each is parsed to |
| HidCodec, HidFieldLaws | field readers and writers in place, and their bit-level meaning |
| InjectClock, ReportRoundTrip, MergeReport, ReportDispatch | slicing, building, decoding and merging of reports, and which layout a report is read with |
| PendingProtocol, PendingConservation, PendingLaws, PendingCommands, PendingDiscards, TickDrain, WheellessMouse | the shared accumulators: conservation, discards, delivery, draining |
| ButtonPublication, ButtonReports, SplitMouse | publishing button changes, and what of them reaches the host |
| InterruptRing, RingErrors | the interrupt IN ring, and what ends its reader |
| EndpointRemap, RemapLaws, EndpointSupport, RemapTightness, FirstFitOptimal | endpoint assignment, its inverse, what the candidates support, and when it is unambiguous and misses nothing |
| DescriptorRewrite, DescriptorLaws, RewriteCommutes | rewriting configuration descriptors |
| Pid, PidLaws, PidFrames, PidDivergence, Calibration | the controller, its output bound and where it ends, each frame in equations, the derived parameters |
| TopoSort, Dependencies, ConfigCodec, ShortCode, ShortCodeVectors, ConfigMerge, OtaVersion, OtaDelta, MotionCurve | the companions |

## What the proofs found

Where a promise of the code does not hold, the code is kept, one lemma shows an input, and another says
for all inputs when the promise does hold.

- A step on an axis is lost when the injected report has no field for it. Input:
  `WheellessMouse.WheelLostWithoutField`; exactly when: `PendingLaws.PostCarries`.
- `add_pending` cuts a carried-over rest to 32767, so a larger backlog limit is not honoured. Input:
  `PendingLaws.DrainNeedsSmallBacklog`; exact amounts for every limit: `PendingLaws.DrainLaw`. The input is
  out of the code's reach as it stands: `g_inject_cfg` (usbproxy/mouse_control.cpp:269) is never written,
  and its default limits are honoured.
- A merge adds in 32 bits before it saturates, so a 32-bit axis at its end jumps to the other end. Input:
  `WheellessMouse.WideMouseJumpsBack`; exactly when the merge saturates: `MergeReport.MergeSaturates`.
- On a mouse whose buttons and axes lie in different reports, which the comment at
  usbproxy/mouse_control.cpp:1022 calls common, no button command ever reaches the host, although the tick
  thread counts it as announced. Input: `SplitMouse.PressNeverArrives`; exactly when the host reads the
  mask: `ButtonReports.ButtonsReachHost`.
- Two command connections can lose a button press. Input: `ButtonPublication.TwoConnectionsLoseAPress`;
  exactly when a store does what its command asks: `StoreExact`, and over runs `MaskIsFold`.
- A command completed before the tick thread begins is not announced until a later one is. Input:
  `ButtonPublication.EarlyCommandIsNotAnnounced`; exactly when: `SilentExactly`.
- A physical report leaves the last injected one stale exactly when it changes the mask:
  `ButtonPublication.PhysicalReportIsNotAnnounced`. A click presses and never releases:
  `ButtonPublication.CommandMovesOneButton`.
- Host addresses are ambiguous when free and fixed UDC endpoints mix. Input:
  `RemapLaws.MixedAddressesCollide`; for which candidates, exactly: `RemapTightness.IdentifyExactly`.
- An address seen before keeps its candidate without another look. Input: `RemapLaws.ReuseSkipsTheCheck`;
  for which configurations every endpoint is supported, exactly: `EndpointSupport.SupportedExactly`.
- First fit can miss an assignment. Input: `RemapLaws.FirstFitMissesAnAssignment`; for which candidates it
  never does, exactly: `FirstFitOptimal.FirstFitOptimalExactly`. How many candidates suffice:
  `EnoughCandidatesSuffice`, which `RemapTightness.AlikeExactly` shows to be sharp.
- Rewriting a configuration descriptor that ends in a two-byte endpoint descriptor writes the byte behind
  it. Input: `DescriptorRewrite.CutEndpointWritesBehind`; exactly when: `BehindTheDescriptor`.
- The controller's output is bounded for predict below 1, and unbounded wherever a constant error closes a
  loop with a gain above 1: `PidLaws.OutputIsBounded`, `PidDivergence.RunsAway`. The X axis is started and
  configured by default with predict 3.0 (core/src/aim/AimThread.cpp:24,
  core/src/model/RuntimeProfile.cpp:903), and with the parameters it is started with an error of four pixels
  drives it past any bound: `PidDivergence.ShippedRunsAway`.
- Upgrading a plugin that is not running can close a dependency cycle; a running one is started again and
  rolled back. Input: `Dependencies.UpgradeCanCloseCycle`; exactly when: `UpgradeKeepsStarts`.
- `max_power` travels as two bytes and is kept as one. Input: `ConfigCodec.MaxPowerIsCut`; exactly when it
  shows: `EncodeAfterDecode`.
- Two configuration updates are not one update with the merged patch. Input:
  `ConfigMerge.TwoUpdatesAreNotOne`; exactly when they are: `MergeAssociates`.
- A delta that failed leaves its side directory, which the next one of that version is merged into
  (scripts/ttbox_ota_updater.py:387-388, 486), so a file no manifest lists can be installed. Input:
  `OtaDelta.StaleFileSurvives`; exactly when: `DeltaIsComplete`. A manifest that lists itself can fail the
  later check. Input: `SelfListingFails`; exactly when: `DeltaVerifies`.
- A comment in usbproxy/mouse_control.cpp (line 249) gives the accumulator bound as 1048575; the code
  uses 1048576, and so does the model. A comment in core/tests/test_license_shortcode.cpp (line 42) writes
  7307651 as 0x006F83C3; it is 0x006F8183, and the number is what the tests and the model use.

## Model

| member | source | states |
|---|---|---|
| HidLayout.Parse | usbproxy/hid_report_layout.cpp:158-258 | for every byte string, parsing in place ends, never indexes past its end, and leaves exactly the descriptor that the item-by-item walk defines; what that walk makes of a descriptor is in `HidItems` and `HidPrinted` |
| HidLayout.ConsumeItem | usbproxy/hid_report_layout.cpp:167-246 | one turn of the loop consumes exactly the item at this byte, or reports truncation and changes nothing; which item that is `HidItems.FetchShort` says |
| HidItems.FetchShort | usbproxy/hid_report_layout.cpp:168-197 | a short item printed after HID 1.11 section 6.2.2.2 (tag, type and size code in one byte, code 3 for four data bytes) is fetched back wherever it stands: type, tag, size, little-endian value and the byte after it |
| HidItems.FetchLong | usbproxy/hid_report_layout.cpp:171-178 | so is a long item: 0xFE, its size, its tag and its data are skipped and nothing else |
| HidItems.EveryPrefix | usbproxy/hid_report_layout.cpp:168-183 | every byte but 0xFE is the prefix of some printed short item |
| HidItems.FetchCut | usbproxy/hid_report_layout.cpp:185-185 | a short item that ends early, after any of its bytes, is truncated |
| HidItems.FetchLongCut | usbproxy/hid_report_layout.cpp:172-175 | so is a long item |
| HidItems.SignedValue | usbproxy/hid_report_layout.cpp:193-197 | a logical minimum is the two's complement value of its one, two or four bytes |
| HidItems.WalkSpecs | usbproxy/hid_report_layout.cpp:166-246 | the walk over any number of printed items applies them one after the other |
| HidPrinted.PrintedIsDrawn | usbproxy/hid_report_layout.cpp:88-258 | every descriptor written from report ids, buttons, padding, pairs of axes, single controls and collections, in any number and order, is parsed to what it draws: each report reaches as far as its groups and holds the first of each control where the bits before it end |
| HidPrinted.UsualMouse | usbproxy/hid_report_layout.cpp:88-258 | the usual mouse, for any number of buttons, any padding, any axis width, any logical minimum of one, two or four bytes, with or without a report id: exactly where buttons, X, Y and wheel lie |
| HidPrinted.InputRefused | usbproxy/hid_report_layout.cpp:92-97 | an Input item of no or more than 4096 bits declares nothing, takes no bits, and uses up the usages before it |
| HidPrinted.NotVariable | usbproxy/hid_report_layout.cpp:106-133 | constants and arrays take their bits and declare nothing |
| HidPrinted.SixteenUsages | usbproxy/hid_report_layout.cpp:222-226 | of any number of listed usages the first sixteen count |
| HidPrinted.LongUsage | usbproxy/hid_report_layout.cpp:215-221 | a four-byte usage brings its own page in its upper two bytes |
| HidPrinted.GlobalsExactly | usbproxy/hid_report_layout.cpp:201-207 | page, logical minimum and report id from data of any size |
| HidPrinted.SizesExactly | usbproxy/hid_report_layout.cpp:203-208 | report size and count from data of any size, signed when it is four bytes |
| HidPrinted.CutIsRefused | usbproxy/hid_report_layout.cpp:185-185 | a descriptor whose last item ends early is refused, whatever stands before it |
| HidPrinted.OtherItems | usbproxy/hid_report_layout.cpp:209-245 | Collection and End Collection use up the usages before them; Output, Feature and everything the parser does not know change nothing |
| HidLayout.HidParser.HandleInputItem | usbproxy/hid_report_layout.cpp:88-134 | an Input item changes one report's layout, seen flag and bit cursor as specified and clears the local items, on every branch |
| HidLayout.HidParser.Apply | usbproxy/hid_report_layout.cpp:199-245 | each short item changes the parser's state as the specification step does |
| HidLayout.StampLayouts | usbproxy/hid_report_layout.cpp:248-257 | exactly the report ids that saw an Input item are stamped with id and length, and counted |
| HidInvariant.StepKeepsInv | usbproxy/hid_report_layout.cpp:88-134 | every item keeps every present field inside its report's cursor, the four fields pairwise disjoint, and ids only behind Report ID items |
| HidInvariant.WalkKeepsInv | usbproxy/hid_report_layout.cpp:166-246 | so does every walk over every byte string, complete or truncated |
| HidInvariant.ParserInvariant | usbproxy/hid_report_layout.cpp:158-258 | in an accepted descriptor every valid layout carries its own index as id, its fields lie inside its bits and are pairwise disjoint, only index 0 is valid without Report ID items, and no cursor passes 4096 bits per byte read |
| HidInvariant.LayoutsAreCounted | usbproxy/hid_report_layout.cpp:248-257 | a descriptor read to its end counts its valid layouts, and is accepted exactly when there is one |
| HidDeclared.FieldsAreFirstDeclared | usbproxy/hid_report_layout.cpp:50-134 | the parser's field for a role is the first declaration of that role in that report, in an independently defined list of all declared fields, where a field begins behind the bits of its report's earlier Input items; it is absent when there is none |
| HidDeclared.WalkFirst | usbproxy/hid_report_layout.cpp:166-246 | the same for a walk from any state: what was found first stays |
| HidLayout.FirstLayoutIsFirst | usbproxy/hid_report_layout.cpp:144-156 | the report chosen for displacement or buttons is the one with the lowest id that qualifies |
| ReportDispatch.SelectedExactly | usbproxy/inject_clock.cpp:51-54 | the layout a report is built with is the first with both axes, or where none has them the first with buttons |
| HidCodec.FieldReadSigned | usbproxy/hid_report_layout.cpp:266-280 | reading inside a buffer agrees with the field reader on the body alone, refusals included |
| HidCodec.FieldWriteSigned | usbproxy/hid_report_layout.cpp:282-305 | writing in place changes the body as the field writer says and no byte outside it; a refusal changes nothing |
| HidCodec.FieldReadMask | usbproxy/hid_report_layout.cpp:307-325 | the same for button masks read |
| HidCodec.FieldWriteMask | usbproxy/hid_report_layout.cpp:327-347 | the same for button masks written |
| HidFieldLaws.ReadSignedIsItsBits | usbproxy/hid_report_layout.cpp:260-280 | a signed read succeeds exactly on an aligned 8, 16 or 32-bit field inside the body and is the two's complement value of the field's bits |
| HidFieldLaws.ReadMaskIsItsBits | usbproxy/hid_report_layout.cpp:307-325 | a mask read succeeds exactly on an aligned field of at most 16 bits inside the body and is the value of its bits |
| HidFieldLaws.WriteSignedReplacesBits | usbproxy/hid_report_layout.cpp:282-305 | a signed write succeeds on the same fields, changes no bit outside the field, and reads back as the value saturated to the width |
| HidFieldLaws.WriteMaskReplacesBits | usbproxy/hid_report_layout.cpp:327-347 | a mask write changes no bit outside the field, high bits of the last byte included, and reads back as the mask cut to the width |
| HidFieldLaws.OtherFieldKept | usbproxy/hid_report_layout.cpp:260-347 | writing one field leaves the value of every bit-disjoint field as it was |
| InjectClock.SplitLaws | usbproxy/inject_clock.cpp:10-31 | slicing loses nothing it does not report, respects both limits, never turns back, holds back or drops only at a full step or backlog, for negative limits too, and stays in 32 bits |
| InjectClock.FillInPlace | usbproxy/inject_clock.cpp:68-86 | filling the body in place gives exactly the specified body or refuses exactly when that does |
| InjectClock.BuildInPlace | usbproxy/inject_clock.cpp:44-90 | building in place emits exactly the specified report within the capacity and leaves the buffer beyond it alone |
| ReportRoundTrip.BuildThenDecode | usbproxy/inject_clock.cpp:44-90 | for every well-formed descriptor, buttons byte and step, a report that is built is located again under the same layout, says these buttons and this step, and every bit outside the written fields is zero |
| ReportRoundTrip.DefaultStepsFit | usbproxy/inject_clock.cpp:35-42 | a step cut with the default limits fits every field width, so saturation never touches it |
| ReportRoundTrip.ParseBuildDecode | usbproxy/mouse_control.cpp:714-738 | parse, plan, build, decode: for every accepted descriptor and pending displacement the host reads the same layout, the buttons masked to their width and exactly the planned step on each axis that has a field |
| ReportDispatch.LocatedExactly | usbproxy/mouse_control.cpp:714-738 | for every well-formed descriptor and every report: it is located exactly when the interface is usable, it is longer than its prefix, and the layout at its id (first byte below 16, or 0 without ids) is valid; then it is read with that very layout, whose id it carries, and the body is the rest |
| ReportDispatch.MergeReportInPlace | usbproxy/mouse_control.cpp:937-1017 | locating, the gates and the merge in the report's own buffer leave the specified report |
| ReportDispatch.MergeStaysInItsReport | usbproxy/mouse_control.cpp:937-1017 | a merge keeps length and id byte, the report is located as before, and what changed lies in X, Y and wheel of the layout whose id the report carries; any other report stays as it is |
| ReportDispatch.AdmitsExactly | usbproxy/mouse_control.cpp:948-972 | on a layout of the parser the gates pass exactly when X and Y start on a byte, are 8, 16 or 32 bits wide, and the report is as long as its layout |
| MergeReport.MergeInPlace | usbproxy/mouse_control.cpp:973-1016 | merging into the physical report in place ends as specified, sums in 32 bits included, and writes no byte outside the body |
| MergeReport.AdmittedMergeExact | usbproxy/mouse_control.cpp:937-1017 | past its gates the failing read and write branches cannot be reached; X and Y hold the 32-bit sum with the step, saturated to their width; a writable wheel too; every other bit of the report stays |
| MergeReport.MergeSaturates | usbproxy/mouse_control.cpp:990-991 | a merged field holds the true sum saturated to its width exactly when that sum stays within 32 bits, and the true sum itself exactly when it fits the width |
| MergeReport.WideFieldJumpsBack | usbproxy/mouse_control.cpp:990-991 | any admitted 32-bit X at its largest value, moved by one, ends at its smallest |
| MergeReport.OverlapGatesNeverFire | usbproxy/mouse_control.cpp:957-966 | on a layout the parser produced the byte-overlap gates refuse nothing beyond unsafe X or Y fields |
| MergeReport.BuilderAcceptsExactly | usbproxy/inject_clock.cpp:44-90 | the builder accepts exactly when the selected report fits the buffer and each field it must write is writable |
| PendingConservation.Conservation | usbproxy/mouse_control.cpp:251-285 | for any number of threads and every interleaving of their atomic operations, on each axis commanded equals delivered plus pending plus held plus the discards in the books, accumulators stay in bounds, and merges lose nothing; `PendingDiscards.DiscardsExplained` says what each entry of the books is |
| PendingCommands.StepCommands | usbproxy/mouse_control.cpp:251-285 | a command adds to each axis of the books its own argument for that axis, cut to 32767 either way, and nothing else adds any; the limit entry grows by what a sum is beyond 1048576, the backlog entry by what was taken beyond one step and one backlog |
| PendingCommands.RunCommands | usbproxy/mouse_control.cpp:315-317 | over every run what was commanded on an axis is the sum of those cuts over the commands, read off the list of events; likewise the two other entries |
| PendingCommands.MoveAlone | usbproxy/mouse_control.cpp:315-317 | an undisturbed command leaves every accumulator at its old value plus its own argument, cut to 32767, the sum cut to 1048576, and its thread idle |
| PendingConservation.StepEven | usbproxy/mouse_control.cpp:844-907 | every atomic operation of a command, tick or merge evens out between its thread, the accumulators and the books; `PendingDiscards.StepDiscards` says what the books' two residual entries are |
| PendingConservation.MergeNotStuck | usbproxy/mouse_control.cpp:982-994 | no merge that passed its gates ends in the branch that returns without giving the step back |
| PendingConservation.PostDecodes | usbproxy/mouse_control.cpp:872-876 | what the host decodes from a posted report is the step on each axis the selected layout carries and zero elsewhere |
| PendingLaws.PostCarries | usbproxy/mouse_control.cpp:865-903 | a post delivers the step on an axis exactly when the selected layout has a field for it, and otherwise drops it |
| PendingLaws.ConservationOnCarriedAxis | usbproxy/mouse_control.cpp:251-285 | if every injected report carries the axis, the books close without the missing-field entry: commanded is delivered plus pending plus held plus the backlog, limit and width discards, the last being the cuts that `PendingDiscards.CutExactly` describes |
| PendingDiscards.CutExactly | usbproxy/mouse_control.cpp:982-1010 | what a merge cuts off on an axis is what the field's width cannot show of the sum of the physical value and the step, and it is zero exactly when that sum fits the width |
| PendingDiscards.StepDiscards | usbproxy/mouse_control.cpp:844-1017 | in every step of every reachable state the width entry of the books grows by exactly the cut of a merge, and the missing-field entry by exactly the step of a post whose layout lacks the axis |
| PendingDiscards.DiscardsExplained | usbproxy/mouse_control.cpp:251-285 | over every run the sum of the commands' arguments, each cut to 32767, equals delivered plus pending plus held plus what the plans dropped beyond the backlog, what the accumulators could not hold, the cuts of all merges and the steps of all posts without the field, which are none when every tick carries the axis |
| PendingLaws.DrainLaw | usbproxy/inject_clock.cpp:10-31 | n ticks send exactly min(\|p\|, S + B', n S) counts in the direction of p, B' being the backlog limit but at most 32767, and leave the rest of min(\|p\|, S + B') |
| PendingLaws.DrainNeedsSmallBacklog | usbproxy/mouse_control.cpp:251-285 | an input for which the configured backlog limit is not what is kept |
| TickDrain.TickIsDrainStep | usbproxy/mouse_control.cpp:844-907 | an undisturbed tick of the state machine, through every exchange, compare-exchange and post, is one step of the drain on every axis |
| TickDrain.TicksDeliver | usbproxy/mouse_control.cpp:844-907 | n undisturbed ticks hand the host exactly min(\|p\|, S + B, n S) of the pending p on every carried axis, and keep the remainder pending |
| TickDrain.EveryStepBuilds | usbproxy/inject_clock.cpp:44-90 | whether a report can be built does not depend on the step |
| TickDrain.PostsExactly | usbproxy/mouse_control.cpp:872-876 | a tick can post exactly when its report, id byte included, fits 64 bytes and the fields it has lie on whole bytes in widths that can be written |
| WheellessMouse.WheelLostWithoutField | usbproxy/inject_clock.cpp:84-86 | a concrete accepted descriptor for which a posted wheel step reaches nobody |
| WheellessMouse.WideMouseJumpsBack | usbproxy/mouse_control.cpp:937-994 | a concrete accepted descriptor and report, admitted to merging, on which a step of one takes X from its largest value to its smallest |
| ButtonPublication.Published | usbproxy/mouse_control.cpp:323-344 | any number of connections, every interleaving: once a command was announced since the tick thread began, the thread is up to date and no command is between store and bump, a report was accepted and the last one was built from the current mask |
| ButtonPublication.FailureKeepsPending | usbproxy/mouse_control.cpp:852-898 | a failed post or an early exit leaves the announcement pending |
| ButtonPublication.MaskIsFold | usbproxy/mouse_control.cpp:335-340 | any number of connections: while no store falls between another connection's load and its store, the mask is the fold of the commands in the order of their stores |
| ButtonPublication.StoreExact | usbproxy/mouse_control.cpp:336-340 | a store leaves what its command asks of the mask as it then is, exactly when the mask it loaded agrees with that one on every other button |
| ButtonPublication.CommandMovesOneButton | usbproxy/mouse_control.cpp:335-340 | a command changes its own button and no other; a click sets it as a press does and never clears it |
| ButtonPublication.BitsAre | usbproxy/mouse_control.cpp:335-335 | button b is bit b - 1 of the mask |
| ButtonPublication.PublishedCommands | usbproxy/mouse_control.cpp:323-344 | with one connection, once its commands are announced the last accepted report was built from exactly the mask they ask for |
| ButtonPublication.TwoConnectionsLoseAPress | usbproxy/mouse_control.cpp:336-340 | a run of two connections in which a press is lost |
| ButtonPublication.EarlyCommandIsNotAnnounced | usbproxy/mouse_control.cpp:846-846 | a run in which a press completes before the tick thread begins: the mask holds it, nothing was posted, and the thread has nothing to announce |
| ButtonPublication.SilentExactly | usbproxy/mouse_control.cpp:844-902 | in every run the thread considers itself up to date without a post exactly when nothing was posted and every command was announced before the thread began |
| ButtonPublication.PhysicalReportIsNotAnnounced | usbproxy/mouse_control.cpp:1040-1041 | after a physical report the last injected report is current exactly when the mask did not change |
| ButtonReports.ReportButtons | usbproxy/inject_clock.cpp:52-71 | the host reads the mask, cut to the field's width, exactly when the selected layout has a buttons field; otherwise the very same report is built from every mask |
| ButtonReports.ButtonsReachHost | usbproxy/mouse_control.cpp:844-903 | over every run with its commands announced, the thread up to date and none in flight, the host reads the current mask from the last accepted report exactly when the selected layout has a buttons field |
| SplitMouse.PressNeverArrives | usbproxy/inject_clock.cpp:44-90 | a concrete accepted descriptor and run: a press is announced, posted and accepted, and the report is that of an empty mask |
| SplitMouse.ButtonReportsStay | usbproxy/mouse_control.cpp:728-734 | on that device a report that begins with 1 is read with the axes, and one that begins with anything else, as its button reports [2, a, b] do, is never admitted to a merge and stays as it is |
| InterruptRing.InterruptRing.Callback | usbproxy/device-libusb.cpp:582-632 | the completion callback changes the ring as specified and says whether the transfer went back; what that is, by how the transfer ended, is in `RingErrors.CompletionExactly` |
| RingErrors.CompletionExactly | usbproxy/device-libusb.cpp:582-632 | per completion: reports join the queue, at 64 in place of the oldest; a stall that is resubmitted changes nothing but the note of the halt; a lost device makes the error -4, a refused resubmission its code, and neither notes a halt; exactly what is not resubmitted leaves flight |
| RingErrors.ReaderEndsExactly | usbproxy/device-libusb.cpp:720-754 | over every run the error is the code of the last failure (refused submission, refused resubmission outside teardown, lost device) and 0 exactly without one; a halt is noted from a stall until it is cleared; a reader is told an error exactly when the queue is empty and there was a failure, with its code, or a teardown, with -10 |
| RingErrors.WaitEndsExactly | usbproxy/device-libusb.cpp:763-791 | the wait at teardown ends when nothing is in flight or after 300 turns, and frees the ring only in the first case |
| RingErrors.DepthExactly | usbproxy/device-libusb.cpp:640-643 | a ring is 2 to 32 transfers deep, and 8 when asked for less |
| RingErrors.RefusalEndsCreation | usbproxy/device-libusb.cpp:674-685 | after the first refused submission no transfer is submitted |
| InterruptRing.InterruptRing.TakeNext | usbproxy/device-libusb.cpp:723-754 | a look at the queue takes the oldest report, else reports the error, else the teardown, else waits |
| InterruptRing.RingSafety | usbproxy/device-libusb.cpp:634-692 | in every reachable state after creation inflight is the number of submitted transfers, slots are freed only when there is none, the queue is within 64, a transfer is missing only behind an error or teardown, and completions are an interleaving of delivered and dropped followed by the queue |
| InterruptRing.ErrorsComeLast | usbproxy/device-libusb.cpp:723-734 | a reader that sees an error has been handed everything that was not dropped |
| InterruptRing.TeardownProgress | usbproxy/device-libusb.cpp:763-791 | once teardown began every completion retires one transfer for good |
| InterruptRing.DropsOldestWhenFull | usbproxy/device-libusb.cpp:592-598 | a report is dropped exactly when one completes onto a full queue, and it is the oldest |
| EndpointRemap.FindCandidate | usbproxy/usb-proxy.cpp:221-233 | the first unused candidate that supports the endpoint, or none when there is none |
| EndpointRemap.SupportsExactly | usbproxy/usb-proxy.cpp:169-203 | a candidate supports an endpoint exactly when it can do its direction, its transfer type (isochronous, bulk, interrupt, never control) and its packet size, unless it has no limit |
| EndpointRemap.AssignedExactly | usbproxy/usb-proxy.cpp:205-219 | a candidate with any address takes the device's, any other shows its own number with the endpoint's direction; only the packet size of isochronous endpoints may change, to the limit, and exactly when it exceeds it or asks for more transactions |
| EndpointRemap.AssignEndpoint | usbproxy/usb-proxy.cpp:244-292 | one endpoint is remapped as specified, the books of used and chosen candidates included |
| EndpointRemap.Config.RemapAltsetting | usbproxy/usb-proxy.cpp:243-293 | one altsetting is remapped in place, endpoint by endpoint, and the others are left alone |
| EndpointRemap.Config.RemapAll | usbproxy/usb-proxy.cpp:235-299 | the remap in place succeeds exactly when the specified first-fit walk does, and then leaves exactly its result |
| RemapLaws.RemapServes | usbproxy/usb-proxy.cpp:235-299 | a successful remap gives each device address one candidate of its own that carries its direction, the same wherever the address appears |
| RemapLaws.IsochronousFits | usbproxy/usb-proxy.cpp:284-292 | after assignment an isochronous packet fits a limit below 2048 and asks for no extra transactions, one that already did is left alone, and other types keep theirs |
| RemapLaws.HostIdentifiesDevice | usbproxy/usb-proxy.cpp:205-219 | on unambiguous candidates two endpoints share a host address exactly when they share a device address, and directions are kept |
| RemapLaws.RemapEndpointForDevice | usbproxy/proxy.cpp:181-202 | the nested search returns the device address of the first endpoint shown under the low byte, or the request unchanged |
| RemapLaws.RemapRoundTrip | usbproxy/proxy.cpp:181-202 | after a remap every host address is translated back to the device address it was made from |
| RemapLaws.UnknownUnchanged | usbproxy/proxy.cpp:201-201 | an address no endpoint is shown under goes through unchanged |
| RemapLaws.MixedAddressesCollide | usbproxy/usb-proxy.cpp:205-219 | an input on which free and fixed candidates show two endpoints under one address |
| RemapLaws.FirstFitMissesAnAssignment | usbproxy/usb-proxy.cpp:221-266 | first fit can fail where an assignment exists |
| RemapLaws.ReuseSkipsTheCheck | usbproxy/usb-proxy.cpp:251-254 | an address seen before keeps its candidate even if that does not support the larger setting |
| RemapLaws.EnoughCandidatesSuffice | usbproxy/usb-proxy.cpp:235-299 | first fit cannot fail when each endpoint has as many supporting candidates as there are device addresses |
| EndpointSupport.RemapChecksFirsts | usbproxy/usb-proxy.cpp:235-299 | a successful remap gives the first endpoint of each device address a candidate that supports it in direction, type and packet size |
| EndpointSupport.SupportedExactly | usbproxy/usb-proxy.cpp:251-266 | for a given configuration, every successful remap on every UDC supports all its endpoints exactly when at each address the later endpoints have the first one's type and no larger packet (isochronous packets may be larger when judged after the cut), or a first endpoint is a control endpoint, which every UDC refuses |
| RemapTightness.IdentifyExactly | usbproxy/usb-proxy.cpp:205-219 | for a given list of up to 30 candidates, host addresses tell device addresses apart in every configuration exactly when the usable candidates are unambiguous |
| RemapTightness.AmbiguousCollides | usbproxy/usb-proxy.cpp:221-266 | any two usable candidates that share a direction and are not told apart can be forced onto two device addresses with one host address |
| RemapTightness.SuccessNeeds | usbproxy/usb-proxy.cpp:221-266 | a successful remap needs, for every set of addresses, as many candidates between them as it has addresses |
| FirstFitOptimal.FirstFitOptimalExactly | usbproxy/usb-proxy.cpp:221-266 | for a given list of up to 30 candidates, first fit succeeds on every configuration that has an assignment exactly when any candidate that can compete with a later one supports no more than that one does; for up to 15 candidates configurations with endpoint numbers 1 to 15 decide it as well |
| FirstFitOptimal.MissedIsMissed | usbproxy/usb-proxy.cpp:221-266 | otherwise this configuration, numbered from 1 to at most the number of candidates, has an assignment and is refused |
| FirstFitOptimal.DoneIsAssignable | usbproxy/usb-proxy.cpp:235-299 | no remap succeeds without an assignment of distinct candidates that support the first endpoint of each address |
| RemapTightness.AlikeExactly | usbproxy/usb-proxy.cpp:221-266 | endpoints that ask for the same thing are remapped exactly when as many candidates support it as they have addresses |
| DescriptorRewrite.RewriteInPlace | usbproxy/proxy.cpp:270-341 | wherever the walk stays inside the transfer buffer, the in-place walk ends and leaves exactly the specified bytes; it touches nothing for other descriptors or without remapping |
| DescriptorRewrite.SpareContains | usbproxy/proxy.cpp:288-340 | the walk stays inside every buffer with two bytes to spare behind the descriptor |
| DescriptorRewrite.BehindTheDescriptor | usbproxy/proxy.cpp:302-316 | of the bytes behind the descriptor only the first can change, and does exactly when the walk ends on a two-byte endpoint descriptor with another address |
| DescriptorRewrite.CutEndpointWritesBehind | usbproxy/proxy.cpp:302-305 | a descriptor on which that byte changes |
| DescriptorLaws.RewriteIsPerDescriptor | usbproxy/proxy.cpp:285-340 | on well-formed descriptors the byte walk is a map over whole descriptors: boundaries and types stay, and so do the bytes after them |
| DescriptorLaws.WellFormedIsContained | usbproxy/proxy.cpp:288-340 | the walk over well-formed descriptors stays inside them, so they may fill the buffer |
| DescriptorLaws.OnlyEndpointBytesChange | usbproxy/proxy.cpp:300-336 | only address, packet size and interval of endpoint descriptors, and the address of a video input header, can differ |
| DescriptorLaws.PutDescExactly | usbproxy/proxy.cpp:300-336 | what each descriptor becomes: an endpoint gets address, packet size and interval of its counterpart, a video input header the address of the endpoint it announces, everything else passes |
| DescriptorLaws.HeaderExactly | usbproxy/proxy.cpp:318-334 | that endpoint is the first of the altsetting in force, or else of the first altsetting of its interface that has any |
| DescriptorLaws.RewriteIsIdempotent | usbproxy/proxy.cpp:270-341 | rewriting twice is rewriting once |
| RewriteCommutes.RewriteSerializes | usbproxy/proxy.cpp:270-341 | rewriting the bytes of a configuration gives the bytes of the configuration with its altsettings replaced |
| RewriteCommutes.RemapKeepsShape | usbproxy/usb-proxy.cpp:270-292 | the remap changes nothing of a configuration that the rewrite does not carry over |
| RewriteCommutes.RewriteCommutesWithRemap | usbproxy/proxy.cpp:270-341 | rewriting the serialised device configuration equals serialising the remapped configuration, for unique interface and setting pairs |
| Pid.Pid1Controller.Update | core/src/aim/Pid1Controller.hpp:65-102 | one frame changes gains, filters and last values and answers as specified, the jump reset included; what that is stands in `PidFrames` |
| PidFrames.FrameExactly | core/src/aim/Pid1Controller.hpp:65-102 | while the error moves by at most 30 a frame: each gain is the weighted mean of its old value and 1 - e/1920 or 1 - e/50, or loses a tenth of its excess share; each filter moves by the Kalman share of its variances; the output is the sum of the channels times the gain |
| PidFrames.JumpForgets | core/src/aim/Pid1Controller.hpp:67-67 | when it moves by more, the answer is the same from every state, in closed form: gains grown from 0, velocity e/101, no integral |
| PidFrames.DeadZoneIsZero | core/src/aim/Pid1Controller.hpp:66-66 | every error below 0.3 is answered as 0 is |
| PidFrames.TargetSwitch | core/src/aim/Pid1Controller.hpp:65-102 | tracking at any gain, a switch to an error of 96 leaves a gain of 0.0285 and an output of 2.736 |
| PidFrames.LimiterPoints | core/src/aim/Pid1Controller.hpp:120-125 | the soft limiter passes 19/24 of its scale at the bandwidth and 62/51 at twice the bandwidth |
| Pid.Pid1Controller.Configure | core/src/aim/Pid1Controller.hpp:54-62 | new parameters leave the controller's state alone |
| Pid.Pid1Controller.Reset | core/src/aim/Pid1Controller.hpp:105-116 | everything is zeroed, the filter variances too |
| PidLaws.SmoothTermOdd | core/src/aim/Pid1Controller.hpp:120-125 | the soft limiter is odd |
| PidLaws.SmoothTermIncreasing | core/src/aim/Pid1Controller.hpp:120-125 | it is strictly increasing under a positive scale |
| PidLaws.SmoothTermContracts | core/src/aim/Pid1Controller.hpp:120-125 | it moves by no more than its argument under a scale of at most the bandwidth |
| PidLaws.FilterStaysWithin | core/src/aim/Pid1Controller.hpp:151-171 | a filter step stays within any bound on its state and measurement, its variance non-negative |
| PidLaws.FilterMovesBetween | core/src/aim/Pid1Controller.hpp:151-171 | a filter's new value lies strictly between its old one and the measurement, and its variance is its gain, strictly between 0 and 1 |
| PidLaws.GainAdapts | core/src/aim/Pid1Controller.hpp:127-149 | below its threshold a gain closes a fixed fraction of its distance to the target, above it shrinks by at most a tenth, and the clamp never acts for rates within [0, 1] |
| PidLaws.TrackedWithin | core/src/aim/Pid1Controller.hpp:69-101 | one frame keeps the output bound and the bounds on both filters |
| PidLaws.StartsWithin | core/src/aim/Pid1Controller.hpp:105-116 | a fresh and a cleared controller begin within every bound |
| PidLaws.OutputIsBounded | core/src/aim/Pid1Controller.hpp:65-116 | over every run from a fresh, a cleared or any bounded state with errors within E and parameters within P, D, p below 1, retuning, jump resets and outside resets included, no output exceeds (P E + 2 D E + 2 p E) / (1 - p) |
| PidDivergence.RunsAway | core/src/aim/Pid1Controller.hpp:65-125 | for all parameters and constant errors e in [1, 50) with predict times what the limiter surely passes times (1 - e/50)(1 - e/1920) above 1, and a proportional output above 0.5, no bound holds: from a cleared controller enough frames make an output that exceeds it |
| PidDivergence.UnlimitedRunsAway | core/src/aim/Pid1Controller.hpp:93-102 | without the limiter this is predict (1 - e/50)(1 - e/1920) > 1 and kp e (1 - e/1920) > 0.5 |
| PidDivergence.ShippedRunsAway | core/src/aim/AimThread.cpp:24-24 | the parameters the X axis is started with are among them, under an error of four pixels |
| PidDivergence.FeedbackGains | core/src/aim/Pid1Controller.hpp:65-102 | once velocity, integral and output ride along one direction, every frame of that error carries them further by a fixed factor above 1 |
| Calibration.DerivedInRange | ttbox_motion/calibration.py:230-261 | derivation refuses exactly what its documentation rules out, and after rounding gives kp at most 60, kd in [4, 50] and predict in [0.1, 0.35] |
| Calibration.SmallerGainDecides | ttbox_motion/calibration.py:236-236 | the smaller gain alone decides, so swapping the axes changes nothing |
| Calibration.GainsNeverRaise | ttbox_motion/calibration.py:236-256 | neither kp nor kd rises when either gain rises, and predict does not depend on them |
| Calibration.WorkedOut | ttbox_motion/calibration.py:230-261 | three calibrations in numbers |
| Calibration.CalibratedOutputIsBounded | ttbox_motion/calibration.py:188-261 | a controller only ever configured by calibrations, and reset at any time, answers errors within E with at most 160.7 E / 0.65 |
| TopoSort.IsSorted | tools/converter/convert_onnx_to_rknn.py:201-207 | true exactly when each node finds its inputs among the graph's and the earlier nodes' outputs |
| TopoSort.SortedExactly | tools/converter/convert_onnx_to_rknn.py:201-207 | sorted means that every input of every node is the empty name, an input of the graph or an output of an earlier node |
| TopoSort.Sort | tools/converter/convert_onnx_to_rknn.py:210-242 | succeeds exactly when some permutation is sorted, returns a sorted permutation, leaves a sorted graph as it is, and on failure names nodes that wait for an input none of the placed nodes provides and that occur in no sorted list of the graph's nodes |
| TopoSort.StuckMeansImpossible | tools/converter/convert_onnx_to_rknn.py:229-236 | a sweep that places nothing proves that no permutation of all nodes is sorted |
| Dependencies.CheckDependencies | framework/plugin_manager/manager.py:182-188 | the recursive check ends on every finite registry and answers as specified |
| Dependencies.CheckIsExact | framework/plugin_manager/manager.py:182-188 | it returns normally exactly when every reachable plugin is registered and none lies on a cycle |
| Dependencies.VerdictIsTrue | framework/plugin_manager/manager.py:182-188 | a raised error is true: the missing plugin is reachable and absent, the plugin of a cycle is reachable and on one |
| Dependencies.PluginManager.Install | framework/plugin_manager/manager.py:112-124 | installing changes the registry as specified or raises for the first absent dependency |
| Dependencies.PluginManager.Uninstall | framework/plugin_manager/manager.py:125-129 | a plugin is removed exactly when it is registered and nothing depends on it |
| Dependencies.OutcomeExactly | framework/plugin_manager/manager.py:112-129 | exactly when an install or uninstall goes through and what it raises otherwise; only what goes through changes the registry |
| Dependencies.StepKeepsOrder | framework/plugin_manager/manager.py:178-189 | every install or uninstall without force keeps the graph closed and acyclic |
| Dependencies.InstalledPluginsStart | framework/plugin_manager/manager.py:112-129 | over every run from an empty registry the dependencies of registered plugins are registered and the check never raises for them |
| Dependencies.ReplaceKeepsStarts | framework/plugin_manager/manager.py:116-121 | replacing a plugin's record, as an install with force does, leaves all startable exactly when none of its new dependencies depends on it |
| Dependencies.PluginManager.Upgrade | framework/plugin_manager/manager.py:130-145 | an upgrade replaces the record, raises for an unregistered plugin or an absent dependency, or restores the old record when a running plugin does not start again |
| Dependencies.UpgradedExactly | framework/plugin_manager/manager.py:130-145 | exactly when an upgrade goes through, is refused or is rolled back; only the first changes the registry |
| Dependencies.UpgradeKeepsStarts | framework/plugin_manager/manager.py:130-145 | after an upgrade all registered plugins can start exactly when the plugin was running, or the upgrade was refused, or none of its new dependencies depends on it |
| Dependencies.UpgradeCanCloseCycle | framework/plugin_manager/manager.py:130-145 | two installs and an upgrade, while it is not running, after which a plugin no longer starts |
| Dependencies.PluginManager.CheckStart | framework/plugin_manager/manager.py:76-76 | the guard of a start raises for an unregistered plugin and otherwise answers as the check does |
| ConfigCodec.Store.EncodeConfigPayload | usbproxy/mouse_control.cpp:92-124 | the response holds the printed fields in the protocol's order |
| ConfigCodec.EncodeExactly | usbproxy/mouse_control.cpp:92-124 | the payload byte by byte: seventeen fixed bytes, then each string behind its length, low byte first |
| ConfigCodec.Store.DecodeConfigPayload | usbproxy/mouse_control.cpp:128-179 | a payload is applied whole or not at all, and refused exactly when any field overruns it |
| ConfigCodec.RoundTrip | usbproxy/mouse_control.cpp:92-179 | decoding an encoded configuration gives it back, whatever follows, exactly when its strings are at most 65535 bytes long |
| ConfigCodec.PrefixRejected | usbproxy/mouse_control.cpp:128-179 | every strict prefix of an encoding is refused |
| ConfigCodec.AcceptsExactly | usbproxy/mouse_control.cpp:128-179 | a payload is accepted exactly when it begins with a printed field list |
| ConfigCodec.EncodeAfterDecode | usbproxy/mouse_control.cpp:120-176 | encoding an accepted configuration gives its payload back exactly when the max_power it carried fits one byte |
| ConfigCodec.MaxPowerIsCut | usbproxy/mouse_control.cpp:120-176 | an accepted payload that is not given back |
| ShortCode.SingleErrorDetected | tools/license/ttbox_license_gen.py:160-172 | in a code of any length changing any one digit is noticed |
| ShortCode.SwapDetected | tools/license/ttbox_license_gen.py:160-172 | swapping two neighbours is noticed exactly when they differ and are not 0 and 31 |
| ShortCode.DataDigits | tools/license/ttbox_license_gen.py:139-144 | the seven groups are the base-32 digits of the hash and spell its value |
| ShortCode.DataDeterminesHash | tools/license/ttbox_license_gen.py:139-144 | two hashes have the same seven characters exactly when they are equal |
| ShortCode.HashId | tools/license/ttbox_license_gen.py:131-136 | the hash loop computes FNV-1a modulo 2 to the 32 |
| ShortCodeVectors.PublishedHashes | tools/license/ttbox_license_gen.py:131-136 | the published FNV-1a values of no byte, "a" and "foobar" |
| ShortCodeVectors.PublishedCode | tools/license/test_license_gen.py:185-189 | the vector both implementations are tested with: its code is TTB-006Z-0C33 |
| ShortCode.Alphabet | tools/license/ttbox_license_gen.py:124-124 | the characters of the 32 digits |
| ShortCode.LuhnCheck | tools/license/ttbox_license_gen.py:160-172 | the loop from the right gives the check character, or nothing exactly when a character is outside the alphabet |
| ShortCode.VerifyShortCode | tools/license/ttbox_license_gen.py:196-208 | verification accepts exactly the strings whose stripped form is eight digits with a right check digit |
| ShortCode.TypingIsForgiven | tools/license/ttbox_license_gen.py:151-157 | letters in either case, O for 0, and I or L for 1 make no difference to the verdict, at any place of any string |
| ShortCode.SeparatorsAreForgiven | tools/license/ttbox_license_gen.py:196-200 | nor do dashes, spaces, tabs and line ends |
| ShortCode.OwnCodeVerifies | tools/license/ttbox_license_gen.py:185-208 | the code of every allowed identifier verifies, and what is returned for any other does not |
| ShortCode.HasCodeExactly | tools/license/ttbox_license_gen.py:175-193 | an identifier has a code, of thirteen characters, exactly when it is 1 to 64 ASCII letters, digits, underscores and dashes |
| ShortCode.BareCodeVerifies | tools/license/ttbox_license_gen.py:185-208 | the eight characters of every allowed identifier's code verify without the prefix, the first being 0, 1, 2 or 3 and so never taken for it |
| ConfigMerge.MergeIdempotent | plugins/web/api_v1.py:237-245 | merging a patch twice is merging it once |
| ConfigMerge.MergeKeepsUntouched | plugins/web/api_v1.py:237-245 | a path the patch does not touch keeps its value, or its absence |
| ConfigMerge.MergeTakesLeaves | plugins/web/api_v1.py:237-245 | every leaf of the patch is there afterwards |
| ConfigMerge.MergeTakesObjects | plugins/web/api_v1.py:237-245 | where the patch has an object there is an object afterwards |
| ConfigMerge.MergeAssociates | plugins/web/api_v1.py:237-245 | two merges are one merge with the merged patch exactly when, wherever a leaf in between separates an earlier object from a later one, the later one has every key of the earlier, and likewise below each shared key |
| ConfigMerge.TwoUpdatesAreNotOne | plugins/web/api_v1.py:237-245 | two updates that differ from one update with the merged patch |
| ConfigMerge.UpdatesLinearise | plugins/web/api_v1.py:249-291 | every interleaving of requests leaves the Core with the stored updates applied one after the other, each whole, and model_id as it was |
| ConfigMerge.StoredWereRequested | plugins/web/api_v1.py:249-291 | what is stored are requests of the run, each with its whole body but for model_id |
| ConfigMerge.UpdateAlone | plugins/web/api_v1.py:249-291 | an undisturbed request is stored and leaves the Core with the merge and the lock free |
| ConfigMerge.FailureStoresNothing | plugins/web/api_v1.py:249-291 | a request whose GET or SET fails stores nothing, changes nothing and gives up the lock; only a SET that succeeds changes the Core |
| ConfigMerge.LastUpdateVisible | plugins/web/api_v1.py:278-291 | each leaf of the last stored update is in the Core |
| OtaVersion.BuildVersionKey | scripts/ttbox_ota_updater.py:114-124 | the loop over the segments builds the specified key |
| OtaVersion.KeysTotal | scripts/ttbox_ota_updater.py:114-124 | version keys are totally ordered |
| OtaVersion.KeysTransitive | scripts/ttbox_ota_updater.py:114-124 | the order is transitive |
| OtaVersion.ReadsOn | scripts/ttbox_ota_updater.py:117-124 | a version is read segment by segment, whichever of the four delimiters stands between |
| OtaVersion.OneSegmentDecides | scripts/ttbox_ota_updater.py:121-122 | changing one segment, whatever stands before and after it, makes a version newer exactly when the new segment sorts after the old: numbers by value and before texts, texts by their characters; 1.9 comes before 1.10 |
| OtaVersion.LongerIsLarger | scripts/ttbox_ota_updater.py:121-122 | of two digit strings of any length that do not begin with a zero the longer is the larger number |
| OtaVersion.EquallyLong | scripts/ttbox_ota_updater.py:121-122 | of two equally long ones the later in the dictionary is |
| OtaVersion.LongerIsNewer | scripts/ttbox_ota_updater.py:114-124 | going on after the same beginning makes a version newer |
| OtaVersion.NewerIsTaken | scripts/ttbox_ota_updater.py:494-513 | a package becomes current exactly when it has a version, is verified, installed and healthy, and is newer or nothing is known to be current |
| OtaVersion.VersionsOnlyRise | scripts/ttbox_ota_updater.py:494-513 | from a known version on every later current version is strictly newer than every earlier one |
| OtaVersion.NeverReinstalled | scripts/ttbox_ota_updater.py:127-131 | a version once current is never installed again, however spelled |
| OtaDelta.StagingArea.MaterializeDelta | scripts/ttbox_ota_updater.py:377-409 | the tree is completed file by file over what the side directory held, or the first offending path is reported and what was copied stays there |
| OtaDelta.IllegalExactly | scripts/ttbox_ota_updater.py:390-391 | a path is refused exactly when it begins at the root or one of the parts between its slashes is .. |
| OtaDelta.VerifyManifest | scripts/ttbox_ota_updater.py:356-369 | true exactly when the manifest is there, something is listed and every listed file has its digest |
| OtaDelta.DeltaIsComplete | scripts/ttbox_ota_updater.py:377-409 | a completed delta holds the listed files, the manifest and whatever was left over, so exactly the former two when the leftover names nothing else |
| OtaDelta.DeltaExactly | scripts/ttbox_ota_updater.py:377-409 | completing succeeds exactly when something is listed and every entry is allowed and to be had; then each path holds the package's file, else the current release's, and unlisted ones what was left over |
| OtaDelta.LeftBehind | scripts/ttbox_ota_updater.py:387-409 | a failed merge leaves the leftover and the files before the first bad entry, a successful one leaves nothing |
| OtaDelta.StaleFileSurvives | scripts/ttbox_ota_updater.py:387-409 | two packages of one version, each with its manifest: the first fails half-way, the second succeeds and passes the check, and its tree holds a file of the first |
| OtaDelta.DeltaVerifies | scripts/ttbox_ota_updater.py:377-409 | whatever was left over, it passes the full check exactly when the manifest does not list itself under another digest |
| OtaDelta.SelfListingFails | scripts/ttbox_ota_updater.py:377-409 | such a manifest, completed and then refused |
| OtaDelta.DeltaRefinesFull | scripts/ttbox_ota_updater.py:377-409 | with a collision-free hash a completed delta and any verified full package of that manifest hold the same bytes at every listed path other than the manifest's own |
| MotionCurve.Train | ttbox_motion/training.py:302-333 | training refuses exactly when a mode is missing and otherwise stores the specified knots and quality |
| MotionCurve.SortedLaws | ttbox_motion/training.py:322-322 | the sorted speeds are an ascending permutation with the same sum |
| MotionCurve.QuantileMonotone | ttbox_motion/training.py:326-331 | the interpolated quantile never falls |
| MotionCurve.EvenSpeeds | ttbox_motion/training.py:326-331 | for evenly spaced speeds the i-th quantile lies i/31 of the way from the slowest to the fastest, between the samples too |
| MotionCurve.SteadySpeeds | ttbox_motion/training.py:314-332 | recordings of one speed give the straight ramp from 0.72 to 1 |
| MotionCurve.SpeedExactly | ttbox_motion/training.py:311-313 | a recording shorter than a millisecond counts as one |
| MotionCurve.QualityMonotone | ttbox_motion/training.py:316-316 | more samples and straighter paths never lower the quality; each makes up half of it, a dozen samples being all that count |
| MotionCurve.CurveLaws | ttbox_motion/training.py:314-332 | the 32 knots lie in [0, 1] and never fall, the first is at most 0.72, the last is exactly 1 when the mean speed is at least 1e-6, and the quality is a percentage |

## Left out

- MergeReport.MergeInPlace: a sum outside 32 bits is undefined in C++; the model wraps it around, as two's complement machines do. `MergeSaturates` says exactly when that happens.
- DescriptorRewrite.RewriteInPlace: transfers on which the source itself leaves its 4096-byte buffer, which takes a descriptor of more than 4094 bytes cut off at its end.
- RewriteCommutes.RewriteCommutesWithRemap: no video streaming input header beside a video streaming altsetting; `RewriteInPlace` and `RewriteIsPerDescriptor` cover that header. The conversion of intervals for the host's speed enters as whatever `setup` holds.
- ButtonPublication.Published: excludes physical reports, which change the mask without announcing it; `PhysicalReportIsNotAnnounced` treats them.
- RemapTightness.SuccessNeeds: necessary only, for one configuration at a time; `FirstFitOptimalExactly` is exact over all configurations of a UDC, `AlikeExactly` for endpoints that ask alike.
- RemapTightness.IdentifyExactly: device addresses are any bytes, as in the code, which does not look at the reserved bits of an endpoint address.
- PidDivergence.RunsAway: one way; below its condition and from predict 1 on, in particular for predict between 1 and 1.02, boundedness is not settled.
- TickDrain.TicksDeliver: for the default limits, which the code never changes; `DrainLaw` has any limits.
- Bits and shifts are written as arithmetic. A bit cursor is unbounded; `ParserInvariant` bounds it by 4096 bits per descriptor byte, so a 32-bit one does not overflow below half a megabyte.
- `layout_for_report` (usbproxy/mouse_control.cpp:714-738) returns a pointer into its local copy of the descriptor; the model returns the layout's value.
- Atomics are sequentially consistent and a spurious compare-exchange failure is a repeated load. The diagnostic counter `inject_drop` adds signed amounts before taking the magnitude, so per-axis discard totals stand in for it.
- The choice of the injecting interface, the lock around the sink, and the early return of `mouse_control_set_report_descriptor` for a descriptor with the same counts.
- The ring's callback is one atomic step: the short stretch after its decrement, in which it still takes the ring's lock, is not modelled, nor are a failed allocation during creation, the rate diagnostics, or time beyond the count of teardown waits.
- Interfaces only group altsettings, so a configuration is the list of its altsettings in walk order. The type, direction and packet-size helpers of Linux usb/ch9.h are not part of this model; their masks are written out. Running the remap a second time is not modelled.
- Controller, calibration and training work over the reals. Rounding is to a nearest multiple, ties either way in calibration and upward in training. Controller fields that are written and never read are omitted. The length of a recorded movement is a given non-negative distance.
- The plugin manager has no builtin plugins, its storage and its rollback succeed, and no permission is denied; whether a plugin is running, and whether its new version comes up, are inputs of an upgrade; version constraints of dependencies are not compared by the code either.
- The Core's configuration has no other writer, and SET_CONFIG stores exactly what it is given.
- Digits are ASCII in versions. An install that succeeds makes its version current. A path in a delta names one file: two spellings of one path, and directories, are not modelled.
- libusb, Raw Gadget ioctls, sockets and thread scheduling appear only as operations that may succeed or fail.
- HID features the parser does not implement: Push and Pop, units, arrays as fields.
- Diagnostics counters, logging, synthetic mode, UVC payload clamping, JSON and Lua injection rules.
- Signatures, package fetching and extraction, Flask routes, cloud calls, Wi-Fi, systemd, EDID tables, RKNN and ONNX model content, lifecycle enumerations: they would add only easy members.
