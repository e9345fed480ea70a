/** A second reading of a report descriptor: the plain list of every variable
    field it declares, in order. The parser's tables are the first match in it. */
module HidDeclared {
  import opened Bytes
  import opened HidLayout
  import opened HidInvariant

  datatype Role = Buttons | AxisX | AxisY | Wheel

  /** A declared field: the report slot it belongs to, its usage and its bits. */
  datatype Declaration = Declaration(slot: nat, usage: Usage, bitOffset: int, bitSize: int, isSigned: bool)
  {
    predicate Plays(role: Role) {
      match role
      case Buttons => usage.page == PAGE_BUTTON
      case AxisX => usage == Usage(PAGE_GENERIC_DESKTOP, USAGE_X)
      case AxisY => usage == Usage(PAGE_GENERIC_DESKTOP, USAGE_Y)
      case Wheel => usage == Usage(PAGE_GENERIC_DESKTOP, USAGE_WHEEL)
    }

    function AsField(role: Role): Field {
      Field(true, bitOffset, bitSize, isSigned && !role.Buttons?)
    }
  }

  function RoleField(lay: Layout, role: Role): Field {
    match role
    case Buttons => lay.buttons
    case AxisX => lay.x
    case AxisY => lay.y
    case Wheel => lay.wheel
  }

  function First(ds: seq<Declaration>, slot: nat, role: Role): (f: Field)
    ensures f.present || f == ABSENT
  {
    if ds == [] then ABSENT
    else if ds[0].slot == slot && ds[0].Plays(role) then ds[0].AsField(role)
    else First(ds[1..], slot, role)
  }

  /** The first field keeps its place; a later one fills it only while it is absent. */
  function Or(have: Field, other: Field): Field {
    if have.present || !other.present then have else other
  }

  /** The fields one Input item declares: one per listed usage, or one block. */
  function InputDeclarations(it: Items, flags: nat, slot: nat, base: int): seq<Declaration> {
    var isSigned := it.logicalMin < 0;
    if Oversized(it) || flags % 2 == 1 || flags / 2 % 2 == 0 then []
    else if it.reportCount <= |it.usages| then
      seq(it.reportCount, k requires 0 <= k < it.reportCount =>
          Declaration(slot, it.usages[k], base + k * it.reportSize, it.reportSize, isSigned))
    else if it.usagePage == PAGE_BUTTON && (it.hasUsageRange || |it.usages| != 1) then
      [Declaration(slot, Usage(PAGE_BUTTON, 0), base, it.reportSize * it.reportCount, isSigned)]
    else if |it.usages| == 1 then
      [Declaration(slot, it.usages[0], base, it.reportSize * it.reportCount, isSigned)]
    else []
  }

  /** The bits one Input item takes in its report. */
  datatype Block = Block(slot: nat, bits: int)

  /** The bits that a slot's blocks take together. */
  function BitsIn(blocks: seq<Block>, slot: nat): int
    decreases |blocks|
  {
    if blocks == [] then 0
    else
      var last := blocks[|blocks| - 1];
      BitsIn(blocks[..|blocks| - 1], slot) + if last.slot == slot then last.bits else 0
  }

  predicate IsInput(item: Item) {
    item.ShortItem? && item.typ == 0 && item.tag == 0x8
  }

  /** The items in force after one more item, whatever the fields found so far. */
  function ItemsAfter(it: Items, item: Item): Items {
    if item.LongItem? then it
    else
      var u := item.u;
      match (item.typ, item.tag)
      case (1, 0x0) => it.(usagePage := u)
      case (1, 0x1) => it.(logicalMin := SignExtend(u, item.size))
      case (1, 0x7) => it.(reportSize := ToInt32(u))
      case (1, 0x8) => it.(reportId := u % 256)
      case (1, 0x9) => it.(reportCount := ToInt32(u))
      case (2, 0x0) =>
        if |it.usages| >= MAX_USAGES then it
        else it.(usages := it.usages + [if item.size == 4 then Usage(u / 0x1_0000 % 0x1_0000, u % 0x1_0000)
                                        else Usage(it.usagePage, u)])
      case (2, 0x1) => it.(usageMin := u, hasUsageRange := true)
      case (2, 0x2) => it.(usageMax := u, hasUsageRange := true)
      case (0, 0x8) => it.ClearLocal()
      case (0, 0xA) => it.ClearLocal()
      case (0, 0xC) => it.ClearLocal()
      case _ => it
  }

  function StepBlocks(it: Items, item: Item): seq<Block> {
    if IsInput(item) && !Oversized(it) then [Block(Slot(it.reportId), it.reportSize * it.reportCount)] else []
  }

  function StepDeclarations(it: Items, item: Item, blocks: seq<Block>): seq<Declaration> {
    if IsInput(item) then
      InputDeclarations(it, item.u, Slot(it.reportId), BitsIn(blocks, Slot(it.reportId)))
    else []
  }

  /** The declarations from byte i on, with these items in force and these blocks before:
      a field begins where the earlier Input items of its report end. */
  function DeclarationsFrom(desc: seq<byte>, i: nat, it: Items, blocks: seq<Block>): seq<Declaration>
    requires i <= |desc|
    decreases |desc| - i
  {
    if i == |desc| || FetchItem(desc, i).Truncated? then []
    else
      var f := FetchItem(desc, i);
      StepDeclarations(it, f.item, blocks)
      + DeclarationsFrom(desc, f.next, ItemsAfter(it, f.item), blocks + StepBlocks(it, f.item))
  }

  /** The parser is where the list is: the same items, and each cursor behind its blocks. */
  predicate Agrees(s: State, it: Items, blocks: seq<Block>) {
    s.Shaped() && s.items == it && forall r: nat :: r < MAX_REPORT_ID ==> s.cursor[r] == BitsIn(blocks, r)
  }

  lemma BitsGrow(blocks: seq<Block>, b: Block, r: nat)
    ensures BitsIn(blocks + [b], r) == BitsIn(blocks, r) + if b.slot == r then b.bits else 0
  {
    assert (blocks + [b])[..|blocks|] == blocks;
  }

  lemma StepItems(s: State, item: Item)
    requires s.Shaped()
    ensures Step(s, item).items == ItemsAfter(s.items, item)
  {
  }

  lemma StepAgrees(s: State, item: Item, blocks: seq<Block>)
    requires Agrees(s, s.items, blocks)
    ensures Agrees(Step(s, item), ItemsAfter(s.items, item), blocks + StepBlocks(s.items, item))
  {
    StepItems(s, item);
    hide ItemsAfter;
    var added := StepBlocks(s.items, item);
    forall r: nat | r < MAX_REPORT_ID
      ensures Step(s, item).cursor[r] == BitsIn(blocks + added, r)
    {
      if added == [] {
        assert blocks + added == blocks;
      } else {
        BitsGrow(blocks, added[0], r);
      }
    }
  }

  lemma {:induction false} FirstAppend(a: seq<Declaration>, b: seq<Declaration>, slot: nat, role: Role)
    ensures First(a + b, slot, role) == Or(First(a, slot, role), First(b, slot, role))
  {
    if a == [] {
      assert a + b == b;
    } else {
      assert (a + b)[1..] == a[1..] + b;
      FirstAppend(a[1..], b, slot, role);
    }
  }

  lemma {:induction false} FirstOtherSlot(ds: seq<Declaration>, slot: nat, role: Role)
    requires forall d :: d in ds ==> d.slot != slot
    ensures First(ds, slot, role) == ABSENT
  {
    if ds != [] {
      FirstOtherSlot(ds[1..], slot, role);
    }
  }

  lemma AssignOne(lay: Layout, d: Declaration, role: Role)
    requires d.bitSize > 0
    ensures RoleField(AssignField(lay, d.usage.page, d.usage.id, d.bitOffset, d.bitSize, d.isSigned), role)
         == Or(RoleField(lay, role), First([d], d.slot, role))
  {
  }

  lemma ButtonsOne(lay: Layout, d: Declaration, role: Role)
    requires d.bitSize > 0 && d.usage == Usage(PAGE_BUTTON, 0)
    ensures RoleField(SetButtons(lay, d.bitOffset, d.bitSize), role) == Or(RoleField(lay, role), First([d], d.slot, role))
  {
  }

  lemma {:induction false} ListedFirst(lay: Layout, it: Items, flags: nat, slot: nat, base: int, k: nat, role: Role)
    requires !Oversized(it) && flags % 2 == 0 && flags / 2 % 2 == 1 && k <= it.reportCount <= |it.usages|
    ensures RoleField(AssignListed(lay, it.usages, k, base, it.reportSize, it.logicalMin < 0), role)
         == Or(RoleField(lay, role), First(InputDeclarations(it, flags, slot, base)[..k], slot, role))
  {
    var ds := InputDeclarations(it, flags, slot, base);
    if k > 0 {
      ListedFirst(lay, it, flags, slot, base, k - 1, role);
      assert ds[..k] == ds[..k - 1] + [ds[k - 1]];
      FirstAppend(ds[..k - 1], [ds[k - 1]], slot, role);
      AssignOne(AssignListed(lay, it.usages, k - 1, base, it.reportSize, it.logicalMin < 0), ds[k - 1], role);
    }
  }

  lemma InputFirst(lay: Layout, it: Items, flags: nat, slot: nat, base: int, role: Role)
    requires !Oversized(it)
    ensures RoleField(AssignInput(lay, it, flags, base), role)
         == Or(RoleField(lay, role), First(InputDeclarations(it, flags, slot, base), slot, role))
  {
    var ds := InputDeclarations(it, flags, slot, base);
    MulMono(1, it.reportSize, it.reportCount);
    if flags % 2 == 1 || flags / 2 % 2 == 0 {
    } else if it.reportCount <= |it.usages| {
      ListedFirst(lay, it, flags, slot, base, it.reportCount, role);
      assert ds[..it.reportCount] == ds;
    } else if |ds| == 1 {
      AssignOne(lay, ds[0], role);
      if ds[0].usage == Usage(PAGE_BUTTON, 0) {
        ButtonsOne(lay, ds[0], role);
      }
    }
  }

  lemma StepFirst(s: State, item: Item, blocks: seq<Block>, r: nat, role: Role)
    requires Agrees(s, s.items, blocks) && r < MAX_REPORT_ID
    ensures RoleField(Step(s, item).layouts[r], role)
         == Or(RoleField(s.layouts[r], role), First(StepDeclarations(s.items, item, blocks), r, role))
  {
    if IsInput(item) {
      var rid := Slot(s.items.reportId);
      if Oversized(s.items) {
      } else if r == rid {
        InputFirst(s.layouts[rid].(valid := true, reportId := rid), s.items, item.u, rid, s.cursor[rid], role);
      } else {
        FirstOtherSlot(StepDeclarations(s.items, item, blocks), r, role);
      }
    }
  }

  lemma {:induction false} WalkFirst(desc: seq<byte>, i: nat, s: State, blocks: seq<Block>, r: nat, role: Role)
    requires i <= |desc| && Agrees(s, s.items, blocks) && r < MAX_REPORT_ID
    ensures RoleField(WalkFrom(desc, i, s).state.layouts[r], role)
         == Or(RoleField(s.layouts[r], role), First(DeclarationsFrom(desc, i, s.items, blocks), r, role))
    decreases |desc| - i
  {
    hide ItemsAfter;
    if i == |desc| || FetchItem(desc, i).Truncated? {
    } else {
      var f := FetchItem(desc, i);
      var more := blocks + StepBlocks(s.items, f.item);
      StepAgrees(s, f.item, blocks);
      StepFirst(s, f.item, blocks, r, role);
      WalkFirst(desc, f.next, Step(s, f.item), more, r, role);
      FirstAppend(StepDeclarations(s.items, f.item, blocks),
                  DeclarationsFrom(desc, f.next, ItemsAfter(s.items, f.item), more), r, role);
    }
  }

  /** For every accepted descriptor, report slot and role: the parser's field is the
      first declaration of that role in that slot, and absent when there is none. */
  lemma FieldsAreFirstDeclared(desc: seq<byte>, r: nat, role: Role)
    requires Accepted(desc) && r < MAX_REPORT_ID
    ensures RoleField(ParseDescriptor(desc).layouts[r], role) == First(DeclarationsFrom(desc, 0, NO_ITEMS, []), r, role)
  {
    WalkFirst(desc, 0, InitialState(), [], r, role);
  }
}
