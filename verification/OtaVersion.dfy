/** Release versions of the over-the-air updater: how they are compared, and why a device
    only ever moves forward. */
module OtaVersion {
  /** One part of a version key: numbers sort by value and before texts. */
  datatype Part = Num(value: nat) | Txt(text: string)

  type Key = seq<Part>

  predicate Delimiter(c: char) {
    c == '.' || c == '-' || c == '_' || c == '+'
  }

  predicate AllDigits(s: string) {
    forall i :: 0 <= i < |s| ==> '0' <= s[i] <= '9'
  }

  function Number(s: string): nat
    requires AllDigits(s)
    decreases |s|
  {
    if s == [] then 0 else 10 * Number(s[..|s| - 1]) + (s[|s| - 1] - '0') as nat
  }

  /** A segment between delimiters; an empty one is dropped. */
  function PartOf(seg: string): Key {
    if seg == [] then [] else if AllDigits(seg) then [Num(Number(seg))] else [Txt(seg)]
  }

  /** Where the segment that starts at i ends. */
  function SegmentEnd(v: string, i: nat): (j: nat)
    requires i <= |v|
    ensures i <= j <= |v| && (j < |v| ==> Delimiter(v[j])) && forall k :: i <= k < j ==> !Delimiter(v[k])
    decreases |v| - i
  {
    if i == |v| || Delimiter(v[i]) then i else SegmentEnd(v, i + 1)
  }

  /** _version_key from position i on. */
  function KeyFrom(v: string, i: nat): Key
    requires i <= |v|
    decreases |v| - i
  {
    var j := SegmentEnd(v, i);
    if j == |v| then PartOf(v[i..]) else PartOf(v[i..j]) + KeyFrom(v, j + 1)
  }

  function VersionKey(v: string): Key {
    KeyFrom(v, 0)
  }

  /** The loop over the split segments. */
  method BuildVersionKey(v: string) returns (key: Key)
    ensures key == VersionKey(v)
  {
    hide PartOf;
    key := [];
    var i := 0;
    while true
      invariant i <= |v| && key + KeyFrom(v, i) == VersionKey(v)
      decreases |v| - i
    {
      var j := SegmentEnd(v, i);
      key := key + PartOf(v[i..j]);
      if j == |v| {
        assert v[i..j] == v[i..];
        return;
      }
      i := j + 1;
    }
  }

  // ------------------------------------------------------------ the order

  predicate TextLess(a: string, b: string)
    decreases |a|
  {
    if b == [] then false else if a == [] then true
    else a[0] < b[0] || (a[0] == b[0] && TextLess(a[1..], b[1..]))
  }

  predicate PartLess(a: Part, b: Part) {
    match (a, b)
    case (Num(x), Num(y)) => x < y
    case (Num(_), Txt(_)) => true
    case (Txt(_), Num(_)) => false
    case (Txt(x), Txt(y)) => TextLess(x, y)
  }

  predicate Less(a: Key, b: Key)
    decreases |a|
  {
    if b == [] then false else if a == [] then true
    else PartLess(a[0], b[0]) || (a[0] == b[0] && Less(a[1..], b[1..]))
  }

  lemma {:induction false} TextTotal(a: string, b: string)
    ensures (TextLess(a, b) || a == b || TextLess(b, a)) && !(TextLess(a, b) && TextLess(b, a)) && !TextLess(a, a)
    decreases |a|
  {
    if a != [] {
      TextTotal(a[1..], a[1..]);
      if b != [] && a[0] == b[0] {
        TextTotal(a[1..], b[1..]);
        assert a[1..] == b[1..] ==> [a[0]] + a[1..] == [b[0]] + b[1..];
        assert a == [a[0]] + a[1..] && b == [b[0]] + b[1..];
      }
    }
  }

  lemma {:induction false} TextTransitive(a: string, b: string, c: string)
    requires TextLess(a, b) && TextLess(b, c)
    ensures TextLess(a, c)
    decreases |a|
  {
    if a != [] && a[0] == b[0] == c[0] {
      TextTransitive(a[1..], b[1..], c[1..]);
    }
  }

  lemma PartTotal(a: Part, b: Part)
    ensures (PartLess(a, b) || a == b || PartLess(b, a)) && !(PartLess(a, b) && PartLess(b, a)) && !PartLess(a, a)
  {
    if a.Txt? {
      TextTotal(a.text, a.text);
      if b.Txt? {
        TextTotal(a.text, b.text);
      }
    }
  }

  lemma PartTransitive(a: Part, b: Part, c: Part)
    requires PartLess(a, b) && PartLess(b, c)
    ensures PartLess(a, c)
  {
    if a.Txt? {
      TextTransitive(a.text, b.text, c.text);
    }
  }

  /** Of two keys exactly one is less, or they are equal. */
  lemma {:induction false} KeysTotal(a: Key, b: Key)
    ensures (Less(a, b) || a == b || Less(b, a)) && !(Less(a, b) && Less(b, a)) && !Less(a, a)
    decreases |a|
  {
    hide PartLess;
    if a != [] {
      PartTotal(a[0], a[0]);
      KeysTotal(a[1..], a[1..]);
      if b != [] {
        PartTotal(a[0], b[0]);
        if a[0] == b[0] {
          KeysTotal(a[1..], b[1..]);
          assert a == [a[0]] + a[1..] && b == [b[0]] + b[1..];
        }
      }
    }
  }

  lemma {:induction false} KeysTransitive(a: Key, b: Key, c: Key)
    requires Less(a, b) && Less(b, c)
    ensures Less(a, c)
    decreases |a|
  {
    hide PartLess;
    if a != [] {
      if PartLess(a[0], b[0]) && PartLess(b[0], c[0]) {
        PartTransitive(a[0], b[0], c[0]);
      } else if a[0] == b[0] == c[0] {
        KeysTransitive(a[1..], b[1..], c[1..]);
      }
    }
  }

  // ------------------------------------------------------------ numbers in versions

  /** Where a segment ends depends on what follows, not on what stands before. */
  lemma {:induction false} SegmentShift(pre: string, s: string, i: nat)
    requires i <= |s|
    ensures SegmentEnd(pre + s, |pre| + i) == |pre| + SegmentEnd(s, i)
    decreases |s| - i
  {
    if i < |s| && !Delimiter(s[i]) {
      SegmentShift(pre, s, i + 1);
    }
  }

  /** One segment of a key. */
  lemma KeyStep(v: string, i: nat, j: nat)
    requires i <= |v| && j == SegmentEnd(v, i)
    ensures KeyFrom(v, i) == if j == |v| then PartOf(v[i..]) else PartOf(v[i..j]) + KeyFrom(v, j + 1)
  {
  }

  lemma Slices(pre: string, s: string, i: nat, j: nat)
    requires i <= j <= |s|
    ensures (pre + s)[|pre| + i..] == s[i..] && (pre + s)[|pre| + i..|pre| + j] == s[i..j]
  {
  }

  lemma SliceBefore(pre: string, s: string, i: nat, j: nat)
    requires i <= j <= |pre|
    ensures (pre + s)[i..j] == pre[i..j]
  {
  }

  lemma JoinsOnce(a: Key, b: Key, c: Key)
    ensures a + (b + c) == (a + b) + c
  {
  }

  lemma {:induction false} KeyShift(pre: string, s: string, i: nat)
    requires i <= |s|
    ensures KeyFrom(pre + s, |pre| + i) == KeyFrom(s, i)
    decreases |s| - i
  {
    hide PartOf;
    hide KeyFrom;
    var v, j := pre + s, SegmentEnd(s, i);
    SegmentShift(pre, s, i);
    KeyStep(v, |pre| + i, |pre| + j);
    KeyStep(s, i, j);
    hide SegmentEnd;
    Slices(pre, s, i, j);
    if j < |s| {
      KeyShift(pre, s, j + 1);
    }
  }

  /** A segment that begins inside pre, which ends with a delimiter, ends inside pre. */
  lemma {:induction false} SegmentInside(pre: string, s: string, i: nat)
    requires i < |pre| && Delimiter(pre[|pre| - 1])
    ensures SegmentEnd(pre + s, i) == SegmentEnd(pre, i) < |pre|
    decreases |pre| - i
  {
    if !Delimiter(pre[i]) {
      SegmentInside(pre, s, i + 1);
    }
  }

  lemma KeyAtEnd(pre: string)
    ensures KeyFrom(pre, |pre|) == []
  {
    assert pre[|pre|..] == [];
  }

  /** Parts before a delimiter and after it are read independently. */
  lemma {:induction false} KeyJoins(pre: string, s: string, i: nat)
    requires i <= |pre| && (pre == [] || Delimiter(pre[|pre| - 1]))
    ensures KeyFrom(pre + s, i) == KeyFrom(pre, i) + KeyFrom(s, 0)
    decreases |pre| - i
  {
    hide KeyFrom;
    hide PartOf;
    if i == |pre| {
      KeyShift(pre, s, 0);
      KeyAtEnd(pre);
    } else {
      var j := SegmentEnd(pre, i);
      SegmentInside(pre, s, i);
      KeyStep(pre + s, i, j);
      KeyStep(pre, i, j);
      hide SegmentEnd;
      KeyJoins(pre, s, j + 1);
      SliceBefore(pre, s, i, j);
      JoinsOnce(PartOf(pre[i..j]), KeyFrom(pre, j + 1), KeyFrom(s, 0));
    }
  }

  /** A segment: it holds none of the four delimiters. */
  predicate Segment(a: string) {
    a != [] && forall i :: 0 <= i < |a| ==> a[i] != '.' && a[i] != '-' && a[i] != '_' && a[i] != '+'
  }

  lemma FirstSegment(a: string, post: string)
    requires Segment(a) && (post == [] || Delimiter(post[0]))
    ensures VersionKey(a + post) == PartOf(a) + if post == [] then [] else KeyFrom(post, 1)
  {
    hide PartOf;
    var s := a + post;
    SegmentUntil(a, post, 0);
    if post == [] {
      assert s == a && s[0..] == a;
    } else {
      assert s[0..|a|] == a;
      KeyShift(a, post, 1);
    }
  }

  lemma {:induction false} SegmentUntil(a: string, post: string, i: nat)
    requires Segment(a) && (post == [] || Delimiter(post[0])) && i <= |a|
    ensures SegmentEnd(a + post, i) == |a|
    decreases |a| - i
  {
    if i < |a| {
      SegmentUntil(a, post, i + 1);
    }
  }

  /** A version is read segment by segment, whichever of the four delimiters stands between. */
  lemma ReadsOn(a: string, d: char, rest: string)
    requires Segment(a) && d in ".-_+"
    ensures VersionKey(a + ([d] + rest)) == (if AllDigits(a) then [Num(Number(a))] else [Txt(a)]) + VersionKey(rest)
  {
    FirstSegment(a, [d] + rest);
    KeyShift([d], rest, 0);
  }

  lemma {:induction false} SamePrefix(p: Key, a: Key, b: Key)
    ensures Less(p + a, p + b) <==> Less(a, b)
    decreases |p|
  {
    hide PartLess;
    if p == [] {
      assert p + a == a && p + b == b;
    } else {
      assert (p + a)[1..] == p[1..] + a && (p + b)[1..] == p[1..] + b;
      PartTotal(p[0], p[0]);
      SamePrefix(p[1..], a, b);
    }
  }

  /** Which of two segments sorts first: numbers by value and before texts, texts by their
      characters. */
  predicate SegmentLess(a: string, b: string) {
    if AllDigits(a) then !AllDigits(b) || Number(a) < Number(b) else !AllDigits(b) && TextLess(a, b)
  }

  /** Changing one segment, with anything before and after it, makes the version newer exactly
      when the new segment sorts after the old one. In particular 1.9 comes before 1.10, and
      1.x after both. */
  lemma OneSegmentDecides(pre: string, a: string, b: string, post: string)
    requires Segment(a) && Segment(b)
    requires (pre == [] || Delimiter(pre[|pre| - 1])) && (post == [] || Delimiter(post[0]))
    ensures Less(VersionKey(pre + (a + post)), VersionKey(pre + (b + post))) <==> SegmentLess(a, b)
  {
    var rest := if post == [] then [] else KeyFrom(post, 1);
    var ka, kb := PartOf(a) + rest, PartOf(b) + rest;
    FirstSegment(a, post);
    FirstSegment(b, post);
    KeyJoins(pre, a + post, 0);
    KeyJoins(pre, b + post, 0);
    SamePrefix(KeyFrom(pre, 0), ka, kb);
    OnePart(a, b, rest);
    hide Less;
    hide KeyFrom;
    hide PartOf;
  }

  lemma OnePart(a: string, b: string, rest: Key)
    requires a != [] && b != []
    ensures Less(PartOf(a) + rest, PartOf(b) + rest) <==> SegmentLess(a, b)
  {
    var ka, kb := PartOf(a) + rest, PartOf(b) + rest;
    assert ka[1..] == rest && kb[1..] == rest;
    KeysTotal(rest, rest);
    PartTotal(PartOf(a)[0], PartOf(b)[0]);
    hide Number;
  }

  /** Going on after the same beginning makes a version newer. */
  lemma {:induction false} LongerIsNewer(a: Key, more: Key)
    requires more != []
    ensures Less(a, a + more)
    decreases |a|
  {
    if a != [] {
      assert (a + more)[1..] == a[1..] + more;
      LongerIsNewer(a[1..], more);
    }
  }

  /** A package becomes current exactly when it has a version, is verified, installed and
      healthy, and is newer, or nothing is known to be current. */
  lemma NewerIsTaken(current: string, a: Attempt)
    ensures History(current, [a])
            == if a.version != "" && a.verified && a.installed && a.healthy
                  && (current == "" || Less(VersionKey(current), VersionKey(a.version)))
               then [current, a.version] else [current]
  {
    assert [a][1..] == [];
  }

  /** The value of a digit string, without reading it: of two that do not begin with a zero the
      longer is larger, and of two equally long the later in the dictionary. */
  lemma {:induction false} LongerIsLarger(a: string, b: string)
    requires AllDigits(a) && AllDigits(b) && |a| < |b| && b[0] != '0'
    ensures Number(a) < Number(b)
    decreases |b|
  {
    if a != [] {
      LongerIsLarger(a[..|a| - 1], b[..|b| - 1]);
    } else if |b| > 1 {
      LongerIsLarger(a, b[..|b| - 1]);
    }
  }

  lemma {:induction false} EquallyLong(a: string, b: string)
    requires AllDigits(a) && AllDigits(b) && |a| == |b|
    ensures Number(a) < Number(b) <==> TextLess(a, b)
    ensures Number(a) == Number(b) <==> a == b
    decreases |a|
  {
    if a != [] {
      var n := |a| - 1;
      EquallyLong(a[..n], b[..n]);
      LastDecides(a, b);
      assert a == a[..n] + [a[n]] && b == b[..n] + [b[n]];
    }
  }

  lemma {:induction false} LastDecides(a: string, b: string)
    requires |a| == |b| > 0
    ensures var n := |a| - 1; TextLess(a, b) <==> TextLess(a[..n], b[..n]) || (a[..n] == b[..n] && a[n] < b[n])
    decreases |a|
  {
    var n := |a| - 1;
    if n > 0 {
      LastDecides(a[1..], b[1..]);
      assert a[1..][..n - 1] == a[..n][1..] && b[1..][..n - 1] == b[..n][1..];
      assert a[..n] == [a[0]] + a[..n][1..] && b[..n] == [b[0]] + b[..n][1..];
    }
  }

  /** is_downgrade: an unknown current version refuses nothing. */
  predicate IsDowngrade(newVersion: string, current: string) {
    current != "" && !Less(VersionKey(current), VersionKey(newVersion))
  }

  // ------------------------------------------------------------ runs of the updater

  /** How an update attempt ends: refused or failed before the release is installed, rolled
      back by the health check, or successful. */
  datatype Attempt = Attempt(version: string, verified: bool, installed: bool, healthy: bool)

  predicate Succeeds(current: string, a: Attempt) {
    a.version != "" && a.verified && !IsDowngrade(a.version, current) && a.installed && a.healthy
  }

  /** The versions that became current during a run, oldest first, after the initial one. */
  function History(current: string, run: seq<Attempt>): (h: seq<string>)
    ensures h != [] && h[0] == current
    decreases |run|
  {
    if run == [] then [current]
    else if Succeeds(current, run[0]) then [current] + History(run[0].version, run[1..])
    else History(current, run[1..])
  }

  /** From a known version on, every later current version is strictly newer than every
      earlier one, whatever packages were offered in between. */
  lemma {:induction false} VersionsOnlyRise(current: string, run: seq<Attempt>, i: nat, j: nat)
    requires current != "" && i < j < |History(current, run)|
    ensures Less(VersionKey(History(current, run)[i]), VersionKey(History(current, run)[j]))
    decreases |run|
  {
    hide VersionKey;
    hide Less;
    if Succeeds(current, run[0]) {
      var rest := History(run[0].version, run[1..]);
      if i > 0 {
        VersionsOnlyRise(run[0].version, run[1..], i - 1, j - 1);
      } else if j > 1 {
        VersionsOnlyRise(run[0].version, run[1..], 0, j - 1);
        KeysTransitive(VersionKey(current), VersionKey(rest[0]), VersionKey(rest[j - 1]));
      }
    } else {
      VersionsOnlyRise(current, run[1..], i, j);
    }
  }

  /** So a version that was once current is never installed again, however it is spelled. */
  lemma NeverReinstalled(current: string, run: seq<Attempt>, i: nat, j: nat)
    requires current != "" && i < j < |History(current, run)|
    ensures VersionKey(History(current, run)[i]) != VersionKey(History(current, run)[j])
  {
    hide VersionKey;
    hide Less;
    VersionsOnlyRise(current, run, i, j);
    KeysTotal(VersionKey(History(current, run)[i]), VersionKey(History(current, run)[i]));
  }
}
