/** What every accepted descriptor guarantees: the layout invariant that the
    report codec and the merge path rely on. */
module HidInvariant {
  import opened Bytes
  import opened HidLayout

  predicate Inside(f: Field, bits: int) {
    f.present ==> 0 <= f.bitOffset && 0 < f.bitSize && f.bitOffset + f.bitSize <= bits
  }

  predicate Disjoint(a: Field, b: Field) {
    a.present && b.present ==>
      a.bitOffset + a.bitSize <= b.bitOffset || b.bitOffset + b.bitSize <= a.bitOffset
  }

  predicate FieldsFit(lay: Layout, bits: int) {
    && Inside(lay.buttons, bits) && Inside(lay.x, bits) && Inside(lay.y, bits) && Inside(lay.wheel, bits)
    && Disjoint(lay.buttons, lay.x) && Disjoint(lay.buttons, lay.y) && Disjoint(lay.buttons, lay.wheel)
    && Disjoint(lay.x, lay.y) && Disjoint(lay.x, lay.wheel) && Disjoint(lay.y, lay.wheel)
  }

  /** One slot of the parser's tables after `used` descriptor bytes. */
  ghost predicate SlotOk(s: State, r: nat, used: nat)
    requires s.Shaped() && r < MAX_REPORT_ID
  {
    && 0 <= s.cursor[r] <= MAX_FIELD_BITS * used
    && FieldsFit(s.layouts[r], s.cursor[r])
    && s.layouts[r].valid == s.seen[r] && s.layouts[r].totalBits == 0
    && (s.seen[r] ==> s.layouts[r].reportId == r && s.cursor[r] > 0)
    && (s.seen[r] && r > 0 ==> s.usesReportIds)
  }

  ghost predicate Inv(s: State, used: nat) {
    && s.Shaped()
    && 0 <= s.items.reportId < 256
    && (s.items.reportId > 0 ==> s.usesReportIds)
    && forall r: nat :: r < MAX_REPORT_ID ==> SlotOk(s, r, used)
  }

  /** The invariant of an accepted descriptor's report layouts. */
  ghost predicate WellFormed(d: Descriptor) {
    && |d.layouts| == MAX_REPORT_ID
    && forall r: nat :: r < MAX_REPORT_ID && d.layouts[r].valid ==>
         && d.layouts[r].reportId == r
         && d.layouts[r].totalBits > 0
         && FieldsFit(d.layouts[r], d.layouts[r].totalBits)
         && (r > 0 ==> d.usesReportIds)
  }

  /** A field placed past everything so far overlaps nothing. */
  lemma PlacedFits(lay: Layout, f: Field, bits: int)
    requires FieldsFit(lay, f.bitOffset) && f.present && 0 <= f.bitOffset && 0 < f.bitSize && f.bitOffset + f.bitSize == bits
    ensures FieldsFit(lay.(buttons := f), bits)
    ensures FieldsFit(lay.(x := f), bits)
    ensures FieldsFit(lay.(y := f), bits)
    ensures FieldsFit(lay.(wheel := f), bits)
  {
  }

  lemma AssignFieldFits(lay: Layout, page: nat, usage: nat, off: int, bits: int, isSigned: bool)
    requires FieldsFit(lay, off) && 0 <= off && 0 < bits
    ensures FieldsFit(AssignField(lay, page, usage, off, bits, isSigned), off + bits)
    ensures FieldsFit(SetButtons(lay, off, bits), off + bits)
  {
    hide FieldsFit;
    PlacedFits(lay, Field(true, off, bits, isSigned), off + bits);
    PlacedFits(lay, Field(true, off, bits, false), off + bits);
    FitsWider(lay, off, off + bits);
  }

  lemma FitsWider(lay: Layout, bits: int, wider: int)
    requires FieldsFit(lay, bits) && bits <= wider
    ensures FieldsFit(lay, wider)
  {
  }

  lemma {:induction false} AssignListedFits(lay: Layout, usages: seq<Usage>, k: nat, base: int, size: int, isSigned: bool)
    requires k <= |usages| && FieldsFit(lay, base) && 0 <= base && 0 < size
    ensures FieldsFit(AssignListed(lay, usages, k, base, size, isSigned), base + k * size)
    decreases k
  {
    if k > 0 {
      AssignListedFits(lay, usages, k - 1, base, size, isSigned);
      OneMore(k, size);
      ListedStep(lay, AssignListed(lay, usages, k - 1, base, size, isSigned), usages, k, base, size, isSigned, base + (k - 1) * size);
    }
  }

  lemma ListedStep(lay: Layout, prev: Layout, usages: seq<Usage>, k: nat, base: int, size: int, isSigned: bool, off: int)
    requires 0 < k <= |usages| && FieldsFit(prev, off) && 0 <= off && 0 < size
    requires prev == AssignListed(lay, usages, k - 1, base, size, isSigned) && off == base + (k - 1) * size
    ensures FieldsFit(AssignListed(lay, usages, k, base, size, isSigned), off + size)
  {
    hide FieldsFit;
    hide AssignField;
    AssignFieldFits(prev, usages[k - 1].page, usages[k - 1].id, off, size, isSigned);
    assert AssignListed(lay, usages, k, base, size, isSigned)
        == AssignField(prev, usages[k - 1].page, usages[k - 1].id, off, size, isSigned);
  }

  lemma OneMore(k: nat, size: int)
    requires k > 0 && size > 0
    ensures k * size == (k - 1) * size + size && (k - 1) * size >= 0
  {
  }

  lemma {:induction false} AssignListedKeepsStamp(lay: Layout, usages: seq<Usage>, k: nat, base: int, size: int, isSigned: bool)
    requires k <= |usages|
    ensures var l := AssignListed(lay, usages, k, base, size, isSigned);
            SameStamp(l, lay)
  {
    if k > 0 {
      AssignListedKeepsStamp(lay, usages, k - 1, base, size, isSigned);
    }
  }

  predicate SameStamp(a: Layout, b: Layout) {
    a.valid == b.valid && a.reportId == b.reportId && a.totalBits == b.totalBits
  }

  lemma ListedInputFits(lay: Layout, it: Items, flags: nat, base: int)
    requires !Oversized(it) && FieldsFit(lay, base) && 0 <= base && 1 <= it.reportCount <= |it.usages|
    ensures FieldsFit(AssignInput(lay, it, flags, base), base + it.reportSize * it.reportCount)
    ensures SameStamp(AssignInput(lay, it, flags, base), lay)
  {
    hide FieldsFit;
    var size, count, isSigned := it.reportSize, it.reportCount, it.logicalMin < 0;
    AssignListedFits(lay, it.usages, count, base, size, isSigned);
    AssignListedKeepsStamp(lay, it.usages, count, base, size, isSigned);
    assert base + count * size == base + size * count;
    MulMono(1, count, size);
    FitsWider(lay, base, base + count * size);
  }

  lemma BlockInputFits(lay: Layout, it: Items, flags: nat, base: int, area: int)
    requires !Oversized(it) && FieldsFit(lay, base) && 0 <= base && |it.usages| < it.reportCount
    requires area == it.reportSize * it.reportCount && 0 < area
    ensures FieldsFit(AssignInput(lay, it, flags, base), base + area)
    ensures SameStamp(AssignInput(lay, it, flags, base), lay)
  {
    hide FieldsFit;
    var usage := if |it.usages| == 1 then it.usages[0] else Usage(0, 0);
    AssignFieldFits(lay, usage.page, usage.id, base, area, it.logicalMin < 0);
    FitsWider(lay, base, base + area);
  }

  lemma AssignInputFits(lay: Layout, it: Items, flags: nat, base: int)
    requires !Oversized(it) && FieldsFit(lay, base) && 0 <= base
    ensures FieldsFit(AssignInput(lay, it, flags, base), base + it.reportSize * it.reportCount)
    ensures SameStamp(AssignInput(lay, it, flags, base), lay)
  {
    if it.reportCount <= |it.usages| {
      ListedInputFits(lay, it, flags, base);
    } else {
      MulMono(1, it.reportSize, it.reportCount);
      BlockInputFits(lay, it, flags, base, it.reportSize * it.reportCount);
    }
  }

  lemma StampFits(lay: Layout, rid: int, bits: int)
    requires FieldsFit(lay, bits)
    ensures FieldsFit(lay.(valid := true, reportId := rid), bits)
  {
  }

  lemma HandleInputKeepsInv(s: State, flags: nat, used: nat, next: nat)
    requires Inv(s, used) && used < next
    ensures Inv(HandleInput(s, flags), next)
  {
    hide FieldsFit;
    var t := HandleInput(s, flags);
    var rid := Slot(s.items.reportId);
    assert SlotOk(s, rid, used);
    if !Oversized(s.items) {
      StampFits(s.layouts[rid], rid, s.cursor[rid]);
      AssignInputFits(s.layouts[rid].(valid := true, reportId := rid), s.items, flags, s.cursor[rid]);
      MulMono(1, s.items.reportSize, s.items.reportCount);
    }
    forall r: nat | r < MAX_REPORT_ID
      ensures SlotOk(t, r, next)
    {
      assert SlotOk(s, r, used);
    }
  }

  lemma StepKeepsInv(s: State, item: Item, used: nat, next: nat)
    requires Inv(s, used) && used < next
    ensures Inv(Step(s, item), next)
  {
    var t := Step(s, item);
    if item.ShortItem? && item.typ == 0 && item.tag == 0x8 {
      HandleInputKeepsInv(s, item.u, used, next);
    } else {
      forall r: nat | r < MAX_REPORT_ID
        ensures SlotOk(t, r, next)
      {
        assert SlotOk(s, r, used);
      }
    }
  }

  lemma {:induction false} WalkKeepsInv(desc: seq<byte>, i: nat, s: State)
    requires i <= |desc| && Inv(s, i)
    ensures Inv(WalkFrom(desc, i, s).state, |desc|)
    decreases |desc| - i
  {
    if i == |desc| {
    } else {
      var f := FetchItem(desc, i);
      if f.Truncated? {
        forall r: nat | r < MAX_REPORT_ID
          ensures SlotOk(s, r, |desc|)
        {
          assert SlotOk(s, r, i);
        }
      } else {
        StepKeepsInv(s, f.item, i, f.next);
        WalkKeepsInv(desc, f.next, Step(s, f.item));
      }
    }
  }

  lemma InitialInv()
    ensures Inv(InitialState(), 0)
  {
  }

  /** Every byte string: what the parser accepts is well formed, and no bit cursor
      ever exceeds 4096 bits per descriptor byte (so none overflows a 32-bit int
      while the descriptor is shorter than half a megabyte). */
  lemma ParserInvariant(desc: seq<byte>)
    requires Accepted(desc)
    ensures WellFormed(ParseDescriptor(desc))
    ensures forall r: nat :: r < MAX_REPORT_ID ==>
              ParseDescriptor(desc).layouts[r].totalBits <= MAX_FIELD_BITS * |desc|
  {
    InitialInv();
    WalkKeepsInv(desc, 0, InitialState());
    var s := WalkFrom(desc, 0, InitialState()).state;
    var d := ParseDescriptor(desc);
    forall r: nat | r < MAX_REPORT_ID
      ensures d.layouts[r].valid ==>
                && d.layouts[r].reportId == r && d.layouts[r].totalBits > 0
                && FieldsFit(d.layouts[r], d.layouts[r].totalBits) && (r > 0 ==> d.usesReportIds)
      ensures d.layouts[r].totalBits <= MAX_FIELD_BITS * |desc|
    {
      assert SlotOk(s, r, |desc|);
    }
  }

  lemma {:induction false} CountSeenSet(seen: seq<bool>, n: nat)
    requires n <= |seen|
    ensures CountSeen(seen, n) == |set r: nat | r < n && seen[r]|
    decreases n
  {
    var all := set r: nat | r < n && seen[r];
    if n > 0 {
      CountSeenSet(seen, n - 1);
      var front := set r: nat | r < n - 1 && seen[r];
      assert all == if seen[n - 1] then front + {n - 1} else front;
    } else {
      assert all == {};
    }
  }

  /** A descriptor that was read to its end counts its layouts, and is accepted exactly when
      there is one. */
  lemma LayoutsAreCounted(desc: seq<byte>)
    requires ParseDescriptor(desc).parsed
    ensures var d := ParseDescriptor(desc);
            && d.layoutCount == |set r: nat | r < 16 && d.layouts[r].valid|
            && (Accepted(desc) <==> exists r: nat :: r < 16 && d.layouts[r].valid)
  {
    InitialInv();
    WalkKeepsInv(desc, 0, InitialState());
    var d, s := ParseDescriptor(desc), WalkFrom(desc, 0, InitialState()).state;
    CountSeenSet(s.seen, 16);
    hide WalkFrom;
    hide CountSeen;
    forall r: nat | r < 16 ensures d.layouts[r].valid == s.seen[r] {
      assert SlotOk(s, r, |desc|);
    }
    var found := set r: nat | r < 16 && d.layouts[r].valid;
    assert found == set r: nat | r < 16 && s.seen[r];
    if |found| > 0 {
      var r :| r in found;
    } else {
      assert found == {};
      assert forall r: nat :: r < 16 && d.layouts[r].valid ==> r in found;
    }
  }
}
