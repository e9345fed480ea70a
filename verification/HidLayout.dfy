/** The HID report-descriptor parser: where each mouse field sits in a report
    (Device Class Definition for HID 1.11, section 6.2.2). */
module HidLayout {
  import opened Bytes
  import opened Wrappers

  const PAGE_GENERIC_DESKTOP: nat := 0x01
  const PAGE_BUTTON: nat := 0x09
  const USAGE_X: nat := 0x30
  const USAGE_Y: nat := 0x31
  const USAGE_WHEEL: nat := 0x38
  const MAX_FIELD_BITS: int := 4096
  const MAX_USAGES: nat := 16
  const MAX_REPORT_ID: nat := 16

  datatype Field = Field(present: bool, bitOffset: int, bitSize: int, isSigned: bool)

  const ABSENT: Field := Field(false, -1, 0, false)

  datatype Layout = Layout(valid: bool, reportId: int, totalBits: int,
                           buttons: Field, x: Field, y: Field, wheel: Field)
  {
    predicate HasXY() { x.present && y.present }
    predicate HasButtons() { buttons.present && buttons.bitSize > 0 }
    function TotalBytes(): int { (totalBits + 7) / 8 }
  }

  const NO_LAYOUT: Layout := Layout(false, 0, 0, ABSENT, ABSENT, ABSENT, ABSENT)

  datatype Descriptor = Descriptor(parsed: bool, usesReportIds: bool, layoutCount: nat, layouts: seq<Layout>)
  {
    function Find(reportId: int): Option<Layout>
      requires |layouts| == MAX_REPORT_ID
    {
      if 0 <= reportId < MAX_REPORT_ID && layouts[reportId].valid then Some(layouts[reportId]) else None
    }

    function XyLayout(): Option<Layout> { FirstLayout(layouts, (l: Layout) => l.HasXY()) }

    function ButtonLayout(): Option<Layout> { FirstLayout(layouts, (l: Layout) => l.HasButtons()) }

    predicate Usable() { parsed && (XyLayout().Some? || ButtonLayout().Some?) }
  }

  function FirstLayout(ls: seq<Layout>, want: Layout -> bool): (r: Option<Layout>)
    ensures r.Some? ==> r.value in ls && r.value.valid && want(r.value)
    ensures r.None? ==> forall l :: l in ls && l.valid ==> !want(l)
  {
    if ls == [] then None
    else if ls[0].valid && want(ls[0]) then Some(ls[0])
    else FirstLayout(ls[1..], want)
  }

  /** It is the first: no layout before it qualifies. */
  lemma {:induction false} FirstLayoutIsFirst(ls: seq<Layout>, want: Layout -> bool)
    requires FirstLayout(ls, want).Some?
    ensures exists i :: 0 <= i < |ls| && ls[i] == FirstLayout(ls, want).value
                        && forall j :: 0 <= j < i ==> !(ls[j].valid && want(ls[j]))
  {
    if !(ls[0].valid && want(ls[0])) {
      FirstLayoutIsFirst(ls[1..], want);
      var i :| 0 <= i < |ls| - 1 && ls[1..][i] == FirstLayout(ls[1..], want).value
               && forall j :: 0 <= j < i ==> !(ls[1..][j].valid && want(ls[1..][j]));
      forall j | 0 <= j < i + 1 ensures !(ls[j].valid && want(ls[j])) {
        assert j > 0 ==> ls[j] == ls[1..][j - 1];
      }
      assert ls[i + 1] == FirstLayout(ls, want).value;
    }
  }

  datatype Usage = Usage(page: nat, id: nat)

  /** The global and local items in force (ParserState of the source). */
  datatype Items = Items(usagePage: nat, reportSize: int, reportCount: int, logicalMin: int, reportId: int,
                         usages: seq<Usage>, hasUsageRange: bool, usageMin: nat, usageMax: nat)
  {
    function ClearLocal(): Items {
      this.(usages := [], hasUsageRange := false, usageMin := 0, usageMax := 0)
    }
  }

  const NO_ITEMS: Items := Items(0, 0, 0, 0, 0, [], false, 0, 0)

  /** Everything the parser mutates while it walks a descriptor. */
  datatype State = State(items: Items, cursor: seq<int>, seen: seq<bool>,
                         layouts: seq<Layout>, usesReportIds: bool)
  {
    predicate Shaped() {
      && |cursor| == |seen| == |layouts| == MAX_REPORT_ID
      && |items.usages| <= MAX_USAGES
    }
  }

  function InitialState(): (s: State)
    ensures s.Shaped()
  {
    State(NO_ITEMS, seq(MAX_REPORT_ID, _ => 0), seq(MAX_REPORT_ID, _ => false),
          seq(MAX_REPORT_ID, _ => NO_LAYOUT), false)
  }

  // ---------------------------------------------------------------- field assignment

  function SetButtons(lay: Layout, off: int, bits: int): Layout {
    if bits <= 0 || lay.buttons.present then lay
    else lay.(buttons := Field(true, off, bits, false))
  }

  function AssignField(lay: Layout, page: nat, usage: nat, off: int, bits: int, isSigned: bool): Layout {
    if bits <= 0 then lay
    else if page == PAGE_BUTTON then SetButtons(lay, off, bits)
    else if page != PAGE_GENERIC_DESKTOP then lay
    else if usage == USAGE_X then
      if lay.x.present then lay else lay.(x := Field(true, off, bits, isSigned))
    else if usage == USAGE_Y then
      if lay.y.present then lay else lay.(y := Field(true, off, bits, isSigned))
    else if usage == USAGE_WHEEL then
      if lay.wheel.present then lay else lay.(wheel := Field(true, off, bits, isSigned))
    else lay
  }

  /** The first k listed usages, each given its own field of `size` bits. */
  function AssignListed(lay: Layout, usages: seq<Usage>, k: nat, base: int, size: int, isSigned: bool): Layout
    requires k <= |usages|
  {
    if k == 0 then lay
    else AssignField(AssignListed(lay, usages, k - 1, base, size, isSigned),
                     usages[k - 1].page, usages[k - 1].id, base + (k - 1) * size, size, isSigned)
  }

  predicate Oversized(it: Items) {
    || it.reportSize <= 0 || it.reportCount <= 0
    || it.reportSize > MAX_FIELD_BITS || it.reportCount > MAX_FIELD_BITS
    || it.reportSize * it.reportCount > MAX_FIELD_BITS
  }

  function Slot(reportId: int): (r: nat)
    ensures r < MAX_REPORT_ID
  {
    if 0 <= reportId < MAX_REPORT_ID then reportId else 0
  }

  function AssignInput(lay: Layout, it: Items, flags: nat, base: int): Layout {
    var size, count, isSigned := it.reportSize, it.reportCount, it.logicalMin < 0;
    if flags % 2 == 1 || flags / 2 % 2 == 0 then lay     // Constant, or an Array
    else if |it.usages| >= 1 && |it.usages| >= count then
      if count <= 0 then lay else AssignListed(lay, it.usages, count, base, size, isSigned)
    else if it.hasUsageRange && it.usagePage == PAGE_BUTTON then SetButtons(lay, base, size * count)
    else if |it.usages| == 1 then
      AssignField(lay, it.usages[0].page, it.usages[0].id, base, size * count, isSigned)
    else if it.usagePage == PAGE_BUTTON then SetButtons(lay, base, size * count)
    else lay
  }

  /** One Input item: fields placed on the report's layout, its bit cursor advanced. */
  function HandleInput(s: State, flags: nat): (t: State)
    requires s.Shaped()
    ensures t.Shaped()
  {
    if Oversized(s.items) then s.(items := s.items.ClearLocal())
    else
      var rid := Slot(s.items.reportId);
      var base := s.cursor[rid];
      var lay := s.layouts[rid].(valid := true, reportId := rid);
      s.(layouts := s.layouts[rid := AssignInput(lay, s.items, flags, base)],
         seen := s.seen[rid := true],
         cursor := s.cursor[rid := base + s.items.reportSize * s.items.reportCount],
         items := s.items.ClearLocal())
  }

  // ---------------------------------------------------------------- items

  datatype Item = LongItem | ShortItem(typ: nat, tag: nat, size: nat, u: nat)

  datatype Fetch = Truncated | Fetched(item: Item, next: nat)

  /** The item that starts at byte i, or Truncated when its data runs past the end. */
  function FetchItem(desc: seq<byte>, i: nat): (f: Fetch)
    requires i < |desc|
    ensures f.Fetched? ==> i < f.next <= |desc|
    ensures f.Fetched? && f.item.ShortItem? ==> f.next == i + 1 + f.item.size && f.item.size <= 4
  {
    var b := desc[i];
    if b == 0xFE then
      if i + 3 > |desc| then Truncated
      else if i + 3 + desc[i + 1] > |desc| then Truncated
      else Fetched(LongItem, i + 3 + desc[i + 1])
    else
      var size := if b % 4 == 3 then 4 else b % 4;
      if i + 1 + size > |desc| then Truncated
      else Fetched(ShortItem(b / 4 % 4, b / 16 % 16, size, LeValue(desc[i + 1..i + 1 + size])), i + 1 + size)
  }

  /** A `size`-byte two's complement value widened to 32 bits. */
  function SignExtend(u: nat, size: nat): int {
    if size == 0 then 0
    else if u >= Pow2(8 * size - 1) then u - Pow2(8 * size)
    else u
  }

  /** static_cast<int>(uint32_t). */
  function ToInt32(u: nat): int {
    if u >= 0x8000_0000 then u - 0x1_0000_0000 else u
  }

  function Step(s: State, item: Item): (t: State)
    requires s.Shaped()
    ensures t.Shaped()
  {
    match item
    case LongItem => s
    case ShortItem(typ, tag, size, u) =>
      var it := s.items;
      if typ == 1 then
        if tag == 0x0 then s.(items := it.(usagePage := u))
        else if tag == 0x1 then s.(items := it.(logicalMin := SignExtend(u, size)))
        else if tag == 0x7 then s.(items := it.(reportSize := ToInt32(u)))
        else if tag == 0x8 then s.(items := it.(reportId := u % 256), usesReportIds := true)
        else if tag == 0x9 then s.(items := it.(reportCount := ToInt32(u)))
        else s
      else if typ == 2 then
        if tag == 0x0 then
          var usage := if size == 4 then Usage(u / 0x1_0000 % 0x1_0000, u % 0x1_0000)
                       else Usage(it.usagePage, u);
          if |it.usages| < MAX_USAGES then s.(items := it.(usages := it.usages + [usage])) else s
        else if tag == 0x1 then s.(items := it.(usageMin := u, hasUsageRange := true))
        else if tag == 0x2 then s.(items := it.(usageMax := u, hasUsageRange := true))
        else s
      else if typ == 0 then
        if tag == 0x8 then HandleInput(s, u)
        else if tag == 0xA || tag == 0xC then s.(items := it.ClearLocal())
        else s
      else s
  }

  /** A walk from byte i: the state reached, and whether every item was complete. */
  datatype Walk = Walk(complete: bool, state: State)

  function WalkFrom(desc: seq<byte>, i: nat, s: State): (w: Walk)
    requires i <= |desc| && s.Shaped()
    ensures w.state.Shaped()
    decreases |desc| - i
  {
    if i == |desc| then Walk(true, s)
    else
      match FetchItem(desc, i)
      case Truncated => Walk(false, s)
      case Fetched(item, next) => WalkFrom(desc, next, Step(s, item))
  }

  /** The closing loop: stamp every layout that saw an Input item. */
  function Stamp(s: State, n: nat): (ls: seq<Layout>)
    requires s.Shaped() && n <= MAX_REPORT_ID
    ensures |ls| == MAX_REPORT_ID
    ensures forall r :: 0 <= r < MAX_REPORT_ID ==>
              ls[r] == if r < n && s.seen[r]
                       then s.layouts[r].(valid := true, reportId := r, totalBits := s.cursor[r])
                       else s.layouts[r]
  {
    if n == 0 then s.layouts
    else
      var ls := Stamp(s, n - 1);
      if !s.seen[n - 1] then ls
      else ls[n - 1 := ls[n - 1].(valid := true, reportId := n - 1, totalBits := s.cursor[n - 1])]
  }

  function CountSeen(seen: seq<bool>, n: nat): nat
    requires n <= |seen|
  {
    if n == 0 then 0 else CountSeen(seen, n - 1) + if seen[n - 1] then 1 else 0
  }

  /** What the parser leaves in *out after a walk. */
  function Result(w: Walk): (d: Descriptor)
    requires w.state.Shaped()
    ensures |d.layouts| == MAX_REPORT_ID
  {
    if w.complete then
      Descriptor(true, w.state.usesReportIds, CountSeen(w.state.seen, MAX_REPORT_ID), Stamp(w.state, MAX_REPORT_ID))
    else Descriptor(false, w.state.usesReportIds, 0, w.state.layouts)
  }

  /** A freshly constructed descriptor, which an empty input leaves as it was. */
  function Untouched(): (d: Descriptor)
    ensures |d.layouts| == MAX_REPORT_ID
  {
    Descriptor(false, false, 0, seq(MAX_REPORT_ID, _ => NO_LAYOUT))
  }

  function ParseDescriptor(desc: seq<byte>): (d: Descriptor)
    ensures |d.layouts| == MAX_REPORT_ID
  {
    if desc == [] then Untouched() else Result(WalkFrom(desc, 0, InitialState()))
  }

  /** The parser's return value. */
  predicate Accepted(desc: seq<byte>) {
    ParseDescriptor(desc).parsed && ParseDescriptor(desc).layoutCount > 0
  }

  // ---------------------------------------------------------------- the parser itself

  class HidParser {
    var items: Items
    const bitCursor: array<int>
    const seenInput: array<bool>
    const layouts: array<Layout>
    var usesReportIds: bool

    ghost predicate Valid()
      reads this
    {
      bitCursor.Length == seenInput.Length == layouts.Length == MAX_REPORT_ID && |items.usages| <= MAX_USAGES
    }

    ghost function View(): (s: State)
      reads this, bitCursor, seenInput, layouts
      requires Valid()
      ensures s.Shaped()
    {
      State(items, bitCursor[..], seenInput[..], layouts[..], usesReportIds)
    }

    constructor ()
      ensures Valid() && View() == InitialState()
      ensures fresh(bitCursor) && fresh(seenInput) && fresh(layouts)
    {
      items := NO_ITEMS;
      bitCursor := new int[MAX_REPORT_ID](_ => 0);
      seenInput := new bool[MAX_REPORT_ID](_ => false);
      layouts := new Layout[MAX_REPORT_ID](_ => NO_LAYOUT);
      usesReportIds := false;
    }

    method ClearLocal()
      requires Valid()
      modifies this`items
      ensures Valid() && View() == old(View()).(items := old(items).ClearLocal())
    {
      items := items.(usages := [], hasUsageRange := false, usageMin := 0, usageMax := 0);
    }

    /** One field of `size` bits for each of the first `count` listed usages. */
    method AssignUsages(rid: nat, count: nat, base: int, size: int, isSigned: bool)
      requires Valid() && rid < MAX_REPORT_ID && count <= |items.usages|
      modifies layouts
      ensures layouts[..] == old(layouts[..])[rid := AssignListed(old(layouts[rid]), items.usages, count, base, size, isSigned)]
    {
      for k := 0 to count
        invariant layouts[..] == old(layouts[..])[rid := AssignListed(old(layouts[rid]), items.usages, k, base, size, isSigned)]
      {
        layouts[rid] := AssignField(layouts[rid], items.usages[k].page, items.usages[k].id,
                                    base + k * size, size, isSigned);
      }
    }

    /** handle_input: the current items become fields of this report id's layout. */
    method HandleInputItem(flags: nat)
      requires Valid()
      modifies this`items, bitCursor, seenInput, layouts
      ensures Valid() && View() == HandleInput(old(View()), flags)
    {
      hide AssignListed;
      hide AssignField;
      hide SetButtons;
      var size, count := items.reportSize, items.reportCount;
      if size <= 0 || count <= 0 || size > MAX_FIELD_BITS || count > MAX_FIELD_BITS || size * count > MAX_FIELD_BITS {
        ClearLocal();
        return;
      }
      var rid := Slot(items.reportId);
      layouts[rid] := layouts[rid].(valid := true, reportId := rid);
      seenInput[rid] := true;
      var isConstant, isVariable, isSigned := flags % 2 == 1, flags / 2 % 2 == 1, items.logicalMin < 0;
      var base := bitCursor[rid];
      if !isConstant && isVariable {
        if |items.usages| >= 1 && |items.usages| >= count {
          AssignUsages(rid, count, base, size, isSigned);
        } else if items.hasUsageRange && items.usagePage == PAGE_BUTTON {
          layouts[rid] := SetButtons(layouts[rid], base, size * count);
        } else if |items.usages| == 1 {
          layouts[rid] := AssignField(layouts[rid], items.usages[0].page, items.usages[0].id,
                                      base, size * count, isSigned);
        } else if items.usagePage == PAGE_BUTTON {
          layouts[rid] := SetButtons(layouts[rid], base, size * count);
        }
      }
      bitCursor[rid] := base + size * count;
      ClearLocal();
    }

    /** One short item, after its data bytes have been fetched. */
    method Apply(typ: nat, tag: nat, size: nat, u: nat)
      requires Valid()
      modifies this, bitCursor, seenInput, layouts
      ensures Valid() && View() == Step(old(View()), ShortItem(typ, tag, size, u))
    {
      if typ == 1 {
        match tag
        case 0x0 => items := items.(usagePage := u);
        case 0x1 => items := items.(logicalMin := SignExtend(u, size));
        case 0x7 => items := items.(reportSize := ToInt32(u));
        case 0x8 =>
          items := items.(reportId := u % 256);
          usesReportIds := true;
        case 0x9 => items := items.(reportCount := ToInt32(u));
        case _ =>
      } else if typ == 2 {
        if tag == 0x0 {
          var page, id := items.usagePage, u;
          if size == 4 {
            page, id := u / 0x1_0000 % 0x1_0000, u % 0x1_0000;
          }
          if |items.usages| < MAX_USAGES {
            items := items.(usages := items.usages + [Usage(page, id)]);
          }
        } else if tag == 0x1 {
          items := items.(usageMin := u, hasUsageRange := true);
        } else if tag == 0x2 {
          items := items.(usageMax := u, hasUsageRange := true);
        }
      } else if typ == 0 {
        if tag == 0x8 {
          HandleInputItem(u);
        } else if tag == 0xA || tag == 0xC {
          ClearLocal();
        }
      }
    }
  }

  /** The data bytes of a short item, assembled the way the parser does it. */
  method ReadData(desc: array<byte>, i: nat, size: nat) returns (u: nat)
    requires i + size <= desc.Length
    ensures u == LeValue(desc[i..i + size])
  {
    u := 0;
    for k := 0 to size
      invariant u == LeValue(desc[i..i + k])
    {
      LeAppend(desc[i..i + k], desc[i + k]);
      assert desc[i..i + k + 1] == desc[i..i + k] + [desc[i + k]];
      u := u + desc[i + k] * Pow2(8 * k);
    }
  }

  /** One turn of the parser's main loop: fetch the item at byte i and apply it. */
  method ConsumeItem(p: HidParser, desc: array<byte>, i: nat) returns (f: Fetch)
    requires i < desc.Length && p.Valid()
    modifies p, p.bitCursor, p.seenInput, p.layouts
    ensures p.Valid() && f == FetchItem(desc[..], i)
    ensures p.View() == if f.Truncated? then old(p.View()) else Step(old(p.View()), f.item)
  {
    var b, at := desc[i], i + 1;
    if b == 0xFE {
      if at + 2 > desc.Length { return Truncated; }
      var dsize := desc[at];
      at := at + 2;
      if at + dsize > desc.Length { return Truncated; }
      return Fetched(LongItem, at + dsize);
    }
    var size := b % 4;
    if size == 3 { size := 4; }
    if at + size > desc.Length { return Truncated; }
    var u := ReadData(desc, at, size);
    assert desc[..][at..at + size] == desc[at..at + size];
    p.Apply(b / 4 % 4, b / 16 % 16, size, u);
    return Fetched(ShortItem(b / 4 % 4, b / 16 % 16, size, u), at + size);
  }

  /** The closing loop over the sixteen report ids. */
  method StampLayouts(p: HidParser) returns (count: nat)
    requires p.Valid()
    modifies p.layouts
    ensures p.layouts[..] == Stamp(old(p.View()), MAX_REPORT_ID)
    ensures count == CountSeen(p.seenInput[..], MAX_REPORT_ID)
  {
    ghost var s := p.View();
    count := 0;
    for r := 0 to MAX_REPORT_ID
      invariant p.layouts[..] == Stamp(s, r) && count == CountSeen(s.seen, r)
      invariant p.bitCursor[..] == s.cursor && p.seenInput[..] == s.seen
    {
      if p.seenInput[r] {
        p.layouts[r] := p.layouts[r].(valid := true, reportId := r, totalBits := p.bitCursor[r]);
        count := count + 1;
      }
    }
  }

  /** hid_parse_report_descriptor. */
  method Parse(desc: array<byte>) returns (ok: bool, out: Descriptor)
    ensures out == ParseDescriptor(desc[..])
    ensures ok == Accepted(desc[..])
  {
    if desc.Length == 0 {
      return false, Untouched();
    }
    var p := new HidParser();
    var i := 0;
    while i < desc.Length
      invariant 0 <= i <= desc.Length && p.Valid()
      invariant WalkFrom(desc[..], i, p.View()) == WalkFrom(desc[..], 0, InitialState())
    {
      var f := ConsumeItem(p, desc, i);
      if f.Truncated? {
        return false, Descriptor(false, p.usesReportIds, 0, p.layouts[..]);
      }
      i := f.next;
    }
    var usesIds := p.usesReportIds;
    var count := StampLayouts(p);
    return count > 0, Descriptor(true, usesIds, count, p.layouts[..]);
  }
}
