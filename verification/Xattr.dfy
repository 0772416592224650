/** Packing extended attributes into a region: entries grow up from its start, values down from its end. */
module Xattr {
  import opened Arith
  import opened Bytes

  /** An attribute: the number standing for its name prefix, the rest of the name, the value. */
  datatype Attr = Attr(index: nat, name: seq<byte>, value: seq<byte>)

  /** A region of a buffer; offsets of values are stored relative to `base`. */
  datatype Region = Region(base: nat, first: nat, end: nat)

  const ENTRY: nat := 16

  function EntryLen(nameLen: nat): nat {
    (nameLen + 3 + ENTRY) / 4 * 4
  }

  function ValueSize(size: nat): nat {
    (size + 3) / 4 * 4
  }

  predicate IsLast(data: seq<byte>, at: nat) {
    at + 4 <= |data| && U32At(data, at) == 0
  }

  /** The bytes between the entry at `at` and the lowest value, when the values of the entries from there on lie
      below `end`. The model also stops at an entry that sticks out of the buffer. */
  function FreeSpace(data: seq<byte>, at: nat, end: int): nat
    requires end <= |data|
    decreases |data| - at
  {
    if at < end && !IsLast(data, at) && at + ENTRY <= |data| then
      FreeSpace(data, at + EntryLen(data[at]), end - ValueSize(U32At(data, at + 8)))
    else if at > end then 0
    else end - at
  }

  /** There is never more free space than bytes up to the end. */
  lemma {:induction false} FreeSpaceBound(data: seq<byte>, at: nat, end: int)
    requires end <= |data|
    ensures FreeSpace(data, at, end) == 0 || FreeSpace(data, at, end) <= end - at
    decreases |data| - at
  {
    hide U32At, ValueSize, EntryLen, IsLast;
    if at < end && !IsLast(data, at) && at + ENTRY <= |data| {
      EntryLenBounds(data[at]);
      ValueSizeBounds(U32At(data, at + 8));
      FreeSpaceBound(data, at + EntryLen(data[at]), end - ValueSize(U32At(data, at + 8)));
    }
  }

  /** The first free byte behind the entries; None when the search leaves the buffer. */
  function GetLast(data: seq<byte>, at: nat): Option<nat>
    decreases |data| - at
  {
    if at + 4 > |data| then None
    else if IsLast(data, at) then Some(at)
    else GetLast(data, at + EntryLen(data[at]))
  }

  // ----- what a region holds

  /** Where entry k starts. */
  function EntryAt(r: Region, attrs: seq<Attr>, k: nat): nat
    requires k <= |attrs|
  {
    if k == 0 then r.first else EntryAt(r, attrs, k - 1) + EntryLen(|attrs[k - 1].name|)
  }

  /** The lowest byte used by the values of the first k attributes. */
  function ValuesFrom(r: Region, attrs: seq<Attr>, k: nat): int
    requires k <= |attrs|
  {
    if k == 0 then r.end else ValuesFrom(r, attrs, k - 1) - ValueSize(|attrs[k - 1].value|)
  }

  function Gap(r: Region, attrs: seq<Attr>): int {
    ValuesFrom(r, attrs, |attrs|) - EntryAt(r, attrs, |attrs|)
  }

  function Zeros(n: nat): (z: seq<byte>)
    ensures |z| == n && forall i :: 0 <= i < n ==> z[i] == 0
  {
    seq(n, i => 0)
  }

  /** A value as it is stored, filled up with zeros to a multiple of 4 bytes. */
  function ValueBytes(value: seq<byte>): (v: seq<byte>)
    ensures |v| == ValueSize(|value|)
  {
    value + Zeros(ValueSize(|value|) - |value|)
  }

  /** The entry at `at` describes attribute a, and its value is at the stored offset from base. */
  ghost predicate Holds(data: seq<byte>, base: nat, at: nat, v: nat, a: Attr) {
    && at + ENTRY + |a.name| <= |data| && base < v && v + ValueSize(|a.value|) <= |data|
    && data[at] == |a.name| && data[at + 1] == a.index && U16At(data, at + 2) == v - base
    && U32At(data, at + 4) == 0 && U32At(data, at + 8) == |a.value|
    && data[at + ENTRY..at + ENTRY + |a.name|] == a.name
    && data[v..v + ValueSize(|a.value|)] == ValueBytes(a.value)
  }

  predicate ValidAttr(a: Attr) {
    |a.name| < 256 && a.index < 256
  }

  predicate ValidRegion(r: Region, size: nat) {
    r.base <= r.first <= r.end <= size && r.end - r.base < 0x1_0000 && (r.end - r.first) % 4 == 0
  }

  /** Attribute k is where the layout puts it. */
  ghost predicate EntryOk(data: seq<byte>, r: Region, attrs: seq<Attr>, k: nat)
    requires k < |attrs|
  {
    && ValidAttr(attrs[k]) && ValuesFrom(r, attrs, k + 1) >= 0
    && Holds(data, r.base, EntryAt(r, attrs, k), ValuesFrom(r, attrs, k + 1), attrs[k])
  }

  /** The region holds the attributes in order; the bytes between entries and values are zero. */
  ghost predicate Layout(data: seq<byte>, r: Region, attrs: seq<Attr>) {
    && ValidRegion(r, |data|)
    && r.first <= EntryAt(r, attrs, |attrs|) <= ValuesFrom(r, attrs, |attrs|) <= r.end
    && (forall k: nat | k < |attrs| :: EntryOk(data, r, attrs, k))
    && (forall i :: EntryAt(r, attrs, |attrs|) <= i < ValuesFrom(r, attrs, |attrs|) ==> data[i] == 0)
  }

  lemma EntryLenBounds(n: nat)
    ensures ENTRY + n <= EntryLen(n) < ENTRY + n + 4 && EntryLen(n) % 4 == 0
  {
  }

  lemma ValueSizeBounds(n: nat)
    ensures n <= ValueSize(n) < n + 4 && ValueSize(n) % 4 == 0
  {
  }

  lemma {:induction false} Monotone(r: Region, attrs: seq<Attr>, i: nat, j: nat)
    requires i <= j <= |attrs|
    ensures EntryAt(r, attrs, i) <= EntryAt(r, attrs, j) && ValuesFrom(r, attrs, j) <= ValuesFrom(r, attrs, i)
    ensures i < j ==> EntryAt(r, attrs, i) + ENTRY + |attrs[i].name| <= EntryAt(r, attrs, j)
    ensures i < j ==> ValuesFrom(r, attrs, i + 1) + ValueSize(|attrs[i].value|) <= ValuesFrom(r, attrs, i)
  {
    if i < j {
      EntryLenBounds(|attrs[j - 1].name|);
      ValueSizeBounds(|attrs[i].value|);
      Monotone(r, attrs, i, j - 1);
    }
  }

  lemma {:induction false} GapMultiple(r: Region, attrs: seq<Attr>, k: nat)
    requires k <= |attrs| && (r.end - r.first) % 4 == 0
    ensures (ValuesFrom(r, attrs, k) - EntryAt(r, attrs, k)) % 4 == 0
  {
    if k > 0 {
      hide EntryLen, ValueSize;
      GapMultiple(r, attrs, k - 1);
      EntryLenBounds(|attrs[k - 1].name|);
      ValueSizeBounds(|attrs[k - 1].value|);
      FourthsDiffer(ValuesFrom(r, attrs, k - 1) - EntryAt(r, attrs, k - 1), ValueSize(|attrs[k - 1].value|),
                    EntryLen(|attrs[k - 1].name|));
    }
  }

  lemma FourthsDiffer(x: int, y: int, z: int)
    requires x % 4 == 0 && y % 4 == 0 && z % 4 == 0
    ensures (x - y - z) % 4 == 0
  {
  }

  lemma {:induction false} SamePlaces(r: Region, xs: seq<Attr>, ys: seq<Attr>, k: nat)
    requires k <= |xs| && k <= |ys| && forall i :: 0 <= i < k ==> xs[i] == ys[i]
    ensures EntryAt(r, xs, k) == EntryAt(r, ys, k) && ValuesFrom(r, xs, k) == ValuesFrom(r, ys, k)
  {
    if k > 0 { SamePlaces(r, xs, ys, k - 1); }
  }

  // ----- what the searches find

  lemma FourBytes(data: seq<byte>, at: nat)
    requires at + 4 <= |data|
    ensures U32At(data, at) == 0 <==> data[at] == 0 && data[at + 1] == 0 && data[at + 2] == 0 && data[at + 3] == 0
  {
  }

  /** An entry in the layout is not taken for the end of the list. */
  lemma EntryIsNotLast(data: seq<byte>, base: nat, at: nat, v: nat, a: Attr)
    requires Holds(data, base, at, v, a) && ValidAttr(a)
    ensures at + ENTRY <= |data| && !IsLast(data, at) && data[at] == |a.name| && U32At(data, at + 8) == |a.value|
  {
    FourBytes(data, at);
    assert U16At(data, at + 2) > 0;
  }

  lemma LayoutEntry(data: seq<byte>, r: Region, attrs: seq<Attr>, k: nat)
    requires Layout(data, r, attrs) && k < |attrs|
    ensures ValidAttr(attrs[k]) && ValuesFrom(r, attrs, k + 1) >= 0
    ensures Holds(data, r.base, EntryAt(r, attrs, k), ValuesFrom(r, attrs, k + 1), attrs[k])
  {
    hide Holds, ValidAttr, EntryAt, ValuesFrom, ValidRegion;
    assert EntryOk(data, r, attrs, k);
  }

  lemma LayoutIs(data: seq<byte>, r: Region, attrs: seq<Attr>)
    requires ValidRegion(r, |data|)
    requires r.first <= EntryAt(r, attrs, |attrs|) <= ValuesFrom(r, attrs, |attrs|) <= r.end
    requires forall k: nat | k < |attrs| :: EntryOk(data, r, attrs, k)
    requires forall i :: EntryAt(r, attrs, |attrs|) <= i < ValuesFrom(r, attrs, |attrs|) ==> data[i] == 0
    ensures Layout(data, r, attrs)
  {
    hide EntryOk, ValidRegion, EntryAt, ValuesFrom;
  }

  lemma LayoutBounds(data: seq<byte>, r: Region, attrs: seq<Attr>)
    requires Layout(data, r, attrs)
    ensures ValidRegion(r, |data|)
    ensures r.first <= EntryAt(r, attrs, |attrs|) <= ValuesFrom(r, attrs, |attrs|) <= r.end
    ensures forall i :: EntryAt(r, attrs, |attrs|) <= i < ValuesFrom(r, attrs, |attrs|) ==> data[i] == 0
  {
    hide Holds, ValidAttr, EntryAt, ValuesFrom;
  }

  lemma EntryStep(r: Region, attrs: seq<Attr>, k: nat)
    requires k < |attrs|
    ensures EntryAt(r, attrs, k + 1) == EntryAt(r, attrs, k) + EntryLen(|attrs[k].name|)
    ensures ValuesFrom(r, attrs, k + 1) == ValuesFrom(r, attrs, k) - ValueSize(|attrs[k].value|)
  {
  }

  /** The free space is the gap between the entries and the values. */
  lemma {:induction false} FreeSpaceIsGap(data: seq<byte>, r: Region, attrs: seq<Attr>, k: nat)
    requires Layout(data, r, attrs) && k <= |attrs|
    ensures ValuesFrom(r, attrs, k) <= |data|
    ensures FreeSpace(data, EntryAt(r, attrs, k), ValuesFrom(r, attrs, k)) == Gap(r, attrs)
    decreases |attrs| - k
  {
    hide Holds, ValidAttr, Layout, EntryAt, ValuesFrom, EntryLen, ValueSize, U32At, IsLast;
    LayoutBounds(data, r, attrs);
    assert ValuesFrom(r, attrs, 0) == r.end by { FirstPlaces(r, attrs); }
    Monotone(r, attrs, 0, k);
    Monotone(r, attrs, k, |attrs|);
    if k == |attrs| {
      GapIsLast(data, r, attrs);
    } else {
      EntryStep(r, attrs, k);
      EntryLenBounds(|attrs[k].name|);
      LayoutEntry(data, r, attrs, k);
      EntryIsNotLast(data, r.base, EntryAt(r, attrs, k), ValuesFrom(r, attrs, k + 1), attrs[k]);
      FreeSpaceIsGap(data, r, attrs, k + 1);
      Monotone(r, attrs, k + 1, |attrs|);
    }
  }

  lemma FirstPlaces(r: Region, attrs: seq<Attr>)
    ensures EntryAt(r, attrs, 0) == r.first && ValuesFrom(r, attrs, 0) == r.end
  {
  }

  lemma GapIsLast(data: seq<byte>, r: Region, attrs: seq<Attr>)
    requires Layout(data, r, attrs)
    ensures Gap(r, attrs) > 0 ==> Gap(r, attrs) >= 4 && IsLast(data, EntryAt(r, attrs, |attrs|))
  {
    hide Layout, EntryAt, ValuesFrom, U32At;
    LayoutBounds(data, r, attrs);
    GapMultiple(r, attrs, |attrs|);
    var at := EntryAt(r, attrs, |attrs|);
    if Gap(r, attrs) > 0 { FourBytes(data, at); }
  }

  /** With a gap left, the search for the end of the entries ends at the gap. */
  lemma {:induction false} GetLastIsEnd(data: seq<byte>, r: Region, attrs: seq<Attr>, k: nat)
    requires Layout(data, r, attrs) && k <= |attrs| && Gap(r, attrs) > 0
    ensures GetLast(data, EntryAt(r, attrs, k)) == Some(EntryAt(r, attrs, |attrs|))
    decreases |attrs| - k
  {
    hide Holds, ValidAttr, Layout, EntryAt, ValuesFrom, EntryLen, ValueSize, U32At, IsLast;
    if k == |attrs| {
      GapIsLast(data, r, attrs);
      LayoutBounds(data, r, attrs);
    } else {
      EntryStep(r, attrs, k);
      LayoutEntry(data, r, attrs, k);
      EntryIsNotLast(data, r.base, EntryAt(r, attrs, k), ValuesFrom(r, attrs, k + 1), attrs[k]);
      GetLastIsEnd(data, r, attrs, k + 1);
    }
  }

  // ----- adding an attribute

  function EntryHeader(a: Attr, offset: nat): (h: seq<byte>)
    requires ValidAttr(a)
    ensures |h| == ENTRY
  {
    var len: byte, index: byte := |a.name|, a.index;
    [len, index] + LE2(offset) + LE4(0) + LE4(|a.value|) + LE4(0)
  }

  function EntryBytes(a: Attr, offset: nat): (h: seq<byte>)
    requires ValidAttr(a)
    ensures |h| == EntryLen(|a.name|)
  {
    EntryHeader(a, offset) + a.name + Zeros(EntryLen(|a.name|) - ENTRY - |a.name|)
  }

  /** The buffer with the entry at `at` and its value at v. */
  function WithAttr(data: seq<byte>, base: nat, at: nat, v: nat, a: Attr): (d: seq<byte>)
    requires ValidAttr(a) && base <= v && at + EntryLen(|a.name|) <= v && v + ValueSize(|a.value|) <= |data|
    ensures |d| == |data|
    ensures forall k :: 0 <= k < |data| ==>
      k < at || at + EntryLen(|a.name|) <= k < v || v + ValueSize(|a.value|) <= k ==> d[k] == data[k]
  {
    Put(Put(data, at, EntryBytes(a, v - base)), v, ValueBytes(a.value))
  }

  lemma HeaderFields(d: seq<byte>, at: nat, a: Attr, offset: nat)
    requires ValidAttr(a) && at + ENTRY <= |d| && offset < 0x1_0000 && |a.value| < 0x1_0000_0000
    requires forall k :: 0 <= k < ENTRY ==> d[at + k] == EntryHeader(a, offset)[k]
    ensures d[at] == |a.name| && d[at + 1] == a.index && U16At(d, at + 2) == offset
    ensures U32At(d, at + 4) == 0 && U32At(d, at + 8) == |a.value|
  {
    var h := EntryHeader(a, offset);
    assert d[at..at + ENTRY] == h;
    Field16(d, at, h, 2, offset);
    Field32(d, at, h, 4, 0);
    Field32(d, at, h, 8, |a.value|);
    assert d[at] == h[0] && d[at + 1] == h[1];
  }

  lemma Field16(d: seq<byte>, at: nat, h: seq<byte>, k: nat, x: nat)
    requires at + |h| <= |d| && d[at..at + |h|] == h && k + 2 <= |h| && h[k..k + 2] == LE2(x) && x < 0x1_0000
    ensures U16At(d, at + k) == x
  {
    assert d[at + k] == h[k] == h[k..k + 2][0] && d[at + k + 1] == h[k + 1] == h[k..k + 2][1];
    Write16(d, at + k, x);
    assert Put(d, at + k, LE2(x)) == d;
  }

  lemma Field32(d: seq<byte>, at: nat, h: seq<byte>, k: nat, x: nat)
    requires at + |h| <= |d| && d[at..at + |h|] == h && k + 4 <= |h| && h[k..k + 4] == LE4(x) && x < 0x1_0000_0000
    ensures U32At(d, at + k) == x
  {
    hide LE4, U32At;
    forall i | 0 <= i < 4
      ensures d[at + k + i] == LE4(x)[i]
    {
      assert d[at + k + i] == h[k + i] == h[k..k + 4][i];
    }
    Write32(d, at + k, x);
    assert Put(d, at + k, LE4(x)) == d;
  }

  /** Where the bytes of the entry and those of the value are. */
  lemma WithAttrAt(data: seq<byte>, base: nat, at: nat, v: nat, a: Attr)
    requires ValidAttr(a) && base <= v && at + EntryLen(|a.name|) <= v && v + ValueSize(|a.value|) <= |data|
    ensures var d, e, w := WithAttr(data, base, at, v, a), EntryBytes(a, v - base), ValueBytes(a.value);
      d[at..at + |e|] == e && d[v..v + |w|] == w
  {
    hide EntryBytes, ValueBytes, EntryLen, ValueSize;
  }

  lemma EntryName(a: Attr, offset: nat)
    requires ValidAttr(a)
    ensures |EntryBytes(a, offset)| >= ENTRY + |a.name|
    ensures EntryBytes(a, offset)[..ENTRY] == EntryHeader(a, offset)
    ensures EntryBytes(a, offset)[ENTRY..ENTRY + |a.name|] == a.name
  {
    hide EntryHeader, EntryLen;
    EntryLenBounds(|a.name|);
  }

  lemma WithAttrHolds(data: seq<byte>, base: nat, at: nat, v: nat, a: Attr)
    requires ValidAttr(a) && base < v && at + EntryLen(|a.name|) <= v && v + ValueSize(|a.value|) <= |data|
    requires v - base < 0x1_0000 && |a.value| < 0x1_0000_0000
    ensures Holds(WithAttr(data, base, at, v, a), base, at, v, a)
  {
    hide EntryHeader, EntryBytes, ValueBytes, WithAttr, U16At, U32At, EntryLen, ValueSize;
    EntryLenBounds(|a.name|);
    ValueSizeBounds(|a.value|);
    WithAttrAt(data, base, at, v, a);
    EntryName(a, v - base);
    var d, e := WithAttr(data, base, at, v, a), EntryBytes(a, v - base);
    forall k | 0 <= k < ENTRY + |a.name|
      ensures d[at + k] == e[k]
    {
      assert d[at..at + |e|][k] == e[k];
    }
    forall k | 0 <= k < ENTRY
      ensures e[k] == EntryHeader(a, v - base)[k]
    {
      assert e[..ENTRY][k] == e[k];
    }
    HeaderFields(d, at, a, v - base);
    assert d[at + ENTRY..at + ENTRY + |a.name|] == e[ENTRY..ENTRY + |a.name|];
  }

  lemma HoldsFrame(x: seq<byte>, y: seq<byte>, base: nat, at: nat, v: nat, a: Attr)
    requires Holds(x, base, at, v, a) && |y| == |x|
    requires Agree(x, y, at, at + ENTRY + |a.name|) && Agree(x, y, v, v + ValueSize(|a.value|))
    ensures Holds(y, base, at, v, a)
  {
    AgreeSlice(x, y, at + ENTRY, at + ENTRY + |a.name|);
    AgreeSlice(x, y, v, v + ValueSize(|a.value|));
    SameFields(x, y, at);
  }

  lemma SameFields(x: seq<byte>, y: seq<byte>, at: nat)
    requires at + ENTRY <= |x| == |y| && Agree(x, y, at, at + ENTRY)
    ensures U16At(x, at + 2) == U16At(y, at + 2) && U32At(x, at + 4) == U32At(y, at + 4)
      && U32At(x, at + 8) == U32At(y, at + 8)
  {
  }

  /** The region after an attribute was added in its gap. */
  lemma AddKeepsLayout(data: seq<byte>, r: Region, attrs: seq<Attr>, a: Attr)
    requires Layout(data, r, attrs) && ValidAttr(a) && EntryLen(|a.name|) + ValueSize(|a.value|) <= Gap(r, attrs)
    ensures EntryAt(r, attrs, |attrs|) >= 0 && ValuesFrom(r, attrs, |attrs|) - ValueSize(|a.value|) >= r.base
    ensures ValuesFrom(r, attrs, |attrs|) <= |data|
    ensures var at, v: nat := EntryAt(r, attrs, |attrs|), ValuesFrom(r, attrs, |attrs|) - ValueSize(|a.value|);
      Layout(WithAttr(data, r.base, at, v, a), r, attrs + [a])
    ensures Gap(r, attrs + [a]) == Gap(r, attrs) - EntryLen(|a.name|) - ValueSize(|a.value|)
  {
    hide Layout, Holds, WithAttr, EntryAt, ValuesFrom, EntryLen, ValueSize, ValidAttr;
    LayoutBounds(data, r, attrs);
    EntryLenBounds(|a.name|);
    ValueSizeBounds(|a.value|);
    var n := |attrs|;
    var ys := attrs + [a];
    var at, v: nat := EntryAt(r, attrs, n), ValuesFrom(r, attrs, n) - ValueSize(|a.value|);
    var d := WithAttr(data, r.base, at, v, a);
    SamePlaces(r, attrs, ys, n);
    EntryStep(r, ys, n);
    assert ys[n] == a;
    forall k: nat | k < n + 1
      ensures EntryOk(d, r, ys, k)
    {
      if k < n {
        EarlierStays(data, r, attrs, a, k);
      } else {
        assert at + EntryLen(|a.name|) <= v && r.base < v;
        assert v + ValueSize(|a.value|) <= |data| && v - r.base < 0x1_0000 && |a.value| < 0x1_0000_0000;
        WithAttrHolds(data, r.base, at, v, a);
      }
    }
    assert |ys| == n + 1 && EntryAt(r, ys, |ys|) == at + EntryLen(|a.name|) && ValuesFrom(r, ys, |ys|) == v;
    LayoutIs(d, r, ys);
  }

  /** Earlier attributes stay where they are and as they are. */
  lemma EarlierStays(data: seq<byte>, r: Region, attrs: seq<Attr>, a: Attr, k: nat)
    requires Layout(data, r, attrs) && ValidAttr(a)
      && EntryLen(|a.name|) + ValueSize(|a.value|) <= Gap(r, attrs) && k < |attrs|
    requires r.base <= ValuesFrom(r, attrs, |attrs|) - ValueSize(|a.value|) && ValuesFrom(r, attrs, |attrs|) <= |data|
    ensures var at, v: nat := EntryAt(r, attrs, |attrs|), ValuesFrom(r, attrs, |attrs|) - ValueSize(|a.value|);
      && ValidAttr(attrs[k]) && ValuesFrom(r, attrs + [a], k + 1) >= 0
      && Holds(WithAttr(data, r.base, at, v, a), r.base, EntryAt(r, attrs + [a], k),
          ValuesFrom(r, attrs + [a], k + 1), attrs[k])
  {
    hide Layout, Holds, WithAttr, EntryAt, ValuesFrom, EntryLen, ValueSize, ValidAttr;
    LayoutEntry(data, r, attrs, k);
    LayoutBounds(data, r, attrs);
    var n := |attrs|;
    var at, v: nat := EntryAt(r, attrs, n), ValuesFrom(r, attrs, n) - ValueSize(|a.value|);
    SamePlaces(r, attrs, attrs + [a], k);
    SamePlaces(r, attrs, attrs + [a], k + 1);
    Monotone(r, attrs, k, n);
    Monotone(r, attrs, k + 1, n);
    HoldsInside(data, r.base, EntryAt(r, attrs, k), ValuesFrom(r, attrs, k + 1), attrs[k]);
    HoldsFrame(data, WithAttr(data, r.base, at, v, a), r.base, EntryAt(r, attrs, k),
        ValuesFrom(r, attrs, k + 1), attrs[k]);
  }

  lemma HoldsInside(data: seq<byte>, base: nat, at: nat, v: nat, a: Attr)
    requires Holds(data, base, at, v, a)
    ensures at + ENTRY + |a.name| <= |data| && v + ValueSize(|a.value|) <= |data|
  {
  }

  // ----- the operation

  /** The bytes an attribute takes up. */
  function Need(a: Attr): nat {
    EntryLen(|a.name|) + ValueSize(|a.value|)
  }

  /** The attribute as it is stored: the name index in one byte. */
  function Stored(a: Attr): (b: Attr)
    ensures b.index < 256 && (a.index < 256 ==> b == a)
  {
    a.(index := a.index % 256)
  }

  /** The buffer with the attribute added to the region, or None when its name is too long or it does not fit. */
  function AddToRange(data: seq<byte>, r: Region, a: Attr): Option<seq<byte>>
    requires ValidRegion(r, |data|)
  {
    if |a.name| > 255 then None else
    var available := FreeSpace(data, r.first, r.end);
    if Need(a) > available then None else
    match GetLast(data, r.first)
    case None => None
    case Some(at) =>
      var v := at + available - ValueSize(|a.value|);
      if v < r.base || v + ValueSize(|a.value|) > |data| then None else Some(WithAttr(data, r.base, at, v, Stored(a)))
  }

  /** Adding works exactly when the name has at most 255 bytes and entry and value fit the free space. Then the
      attributes there before are where and as they were, and the free space is smaller by exactly what was added. */
  lemma AddResult(data: seq<byte>, r: Region, attrs: seq<Attr>, a: Attr)
    requires Layout(data, r, attrs)
    ensures AddToRange(data, r, a).Some? <==> |a.name| <= 255 && Need(a) <= FreeSpace(data, r.first, r.end)
    ensures AddToRange(data, r, a).Some? ==>
      var data' := AddToRange(data, r, a).value;
      && Layout(data', r, attrs + [Stored(a)])
      && FreeSpace(data', r.first, r.end) == FreeSpace(data, r.first, r.end) - Need(a)
      && (forall k :: 0 <= k < |data| && !(r.first <= k < r.end) ==> data'[k] == data[k])
  {
    hide Layout, Holds, WithAttr, EntryLen, ValueSize, GetLast, FreeSpace;
    FirstPlaces(r, attrs);
    FreeSpaceIsGap(data, r, attrs, 0);
    LayoutBounds(data, r, attrs);
    EntryLenBounds(|a.name|);
    ValueSizeBounds(|a.value|);
    if |a.name| <= 255 && Need(a) <= Gap(r, attrs) {
      GetLastIsEnd(data, r, attrs, 0);
      AddKeepsLayout(data, r, attrs, Stored(a));
      var data' := AddToRange(data, r, a).value;
      FirstPlaces(r, attrs + [Stored(a)]);
      FreeSpaceIsGap(data', r, attrs + [Stored(a)], 0);
    }
  }

  /** The region after trying to add each attribute in turn, and those that were added. */
  function AddMany(data: seq<byte>, r: Region, as0: seq<Attr>): (seq<byte>, seq<Attr>)
    requires ValidRegion(r, |data|)
    decreases |as0|
  {
    if as0 == [] then (data, []) else
    match AddToRange(data, r, as0[0])
    case None => AddMany(data, r, as0[1..])
    case Some(data') =>
      if |data'| != |data| then (data, []) else
      var (last, added) := AddMany(data', r, as0[1..]);
      (last, [Stored(as0[0])] + added)
  }

  function TotalNeed(attrs: seq<Attr>): nat {
    if attrs == [] then 0 else Need(attrs[0]) + TotalNeed(attrs[1..])
  }

  /** Over any series of additions the region holds exactly the attributes added, in order, and the free space
      is what their entries and values have left. */
  lemma {:induction false} AddManyResult(data: seq<byte>, r: Region, attrs: seq<Attr>, as0: seq<Attr>)
    requires Layout(data, r, attrs) && ValidRegion(r, |data|)
    ensures var (data', added) := AddMany(data, r, as0);
      && |data'| == |data| && Layout(data', r, attrs + added)
      && FreeSpace(data', r.first, r.end) == FreeSpace(data, r.first, r.end) - TotalNeed(added)
    decreases |as0|
  {
    hide Layout, FreeSpace, Need, AddToRange;
    if as0 == [] {
      assert attrs + [] == attrs;
    } else {
      AddResult(data, r, attrs, as0[0]);
      match AddToRange(data, r, as0[0])
      case None =>
        AddManyResult(data, r, attrs, as0[1..]);
      case Some(data') =>
        SameSize(data, r, as0[0]);
        var a := Stored(as0[0]);
        AddManyResult(data', r, attrs + [a], as0[1..]);
        var (last, added) := AddMany(data', r, as0[1..]);
        assert attrs + [a] + added == attrs + ([a] + added);
        assert ([a] + added)[1..] == added;
        SameNeed(as0[0]);
    }
  }

  lemma SameNeed(a: Attr)
    ensures Need(Stored(a)) == Need(a)
  {
  }

  lemma SameSize(data: seq<byte>, r: Region, a: Attr)
    requires ValidRegion(r, |data|)
    ensures AddToRange(data, r, a).Some? ==> |AddToRange(data, r, a).value| == |data|
  {
  }

  /** An empty region is laid out. */
  lemma EmptyLayout(data: seq<byte>, r: Region)
    requires ValidRegion(r, |data|) && forall i :: r.first <= i < r.end ==> data[i] == 0
    ensures Layout(data, r, [])
  {
  }

  // ----- reading the attributes back

  /** The attributes found by walking the entries from `at` on; None when the walk or a value leaves the buffer. */
  function ReadAttrs(data: seq<byte>, base: nat, at: nat): Option<seq<Attr>>
    decreases |data| - at
  {
    if at + 4 > |data| then None
    else if IsLast(data, at) then Some([])
    else if at + ENTRY > |data| then None
    else
      var n: nat, index: nat, v, size := data[at], data[at + 1], base + U16At(data, at + 2), U32At(data, at + 8);
      if at + ENTRY + n > |data| || v + size > |data| then None
      else
        match ReadAttrs(data, base, at + EntryLen(n))
        case None => None
        case Some(rest) => Some([Attr(index, data[at + ENTRY..at + ENTRY + n], data[v..v + size])] + rest)
  }

  lemma ReadOne(data: seq<byte>, base: nat, at: nat, v: nat, a: Attr)
    requires Holds(data, base, at, v, a) && ValidAttr(a)
    ensures ReadAttrs(data, base, at) ==
      match ReadAttrs(data, base, at + EntryLen(|a.name|)) case None => None case Some(rest) => Some([a] + rest)
  {
    hide U32At, U16At, IsLast, EntryLen;
    EntryIsNotLast(data, base, at, v, a);
    var n: nat, index: nat, w, size := data[at], data[at + 1], base + U16At(data, at + 2), U32At(data, at + 8);
    ValueSizeBounds(|a.value|);
    assert data[v..v + ValueSize(|a.value|)][..|a.value|] == data[v..v + |a.value|];
    assert w == v && data[at + ENTRY..at + ENTRY + n] == a.name && data[w..w + size] == a.value;
  }

  /** The walk finds the attributes of the layout and then whatever it takes the bytes behind them for. */
  lemma {:induction false} ReadThrough(data: seq<byte>, r: Region, attrs: seq<Attr>, k: nat)
    requires Layout(data, r, attrs) && k <= |attrs|
    ensures ReadAttrs(data, r.base, EntryAt(r, attrs, k)) ==
      match ReadAttrs(data, r.base, EntryAt(r, attrs, |attrs|))
      case None => None
      case Some(rest) => Some(attrs[k..] + rest)
    decreases |attrs| - k
  {
    hide Layout, Holds, EntryAt, EntryLen, ReadAttrs, ValidAttr, IsLast;
    var behind := ReadAttrs(data, r.base, EntryAt(r, attrs, |attrs|));
    if k == |attrs| {
      if behind.Some? { assert attrs[k..] + behind.value == behind.value; }
    } else {
      LayoutEntry(data, r, attrs, k);
      EntryStep(r, attrs, k);
      ReadOne(data, r.base, EntryAt(r, attrs, k), ValuesFrom(r, attrs, k + 1), attrs[k]);
      ReadThrough(data, r, attrs, k + 1);
      if behind.Some? { assert attrs[k..] + behind.value == [attrs[k]] + (attrs[k + 1..] + behind.value); }
    }
  }

  lemma ReadNothing(data: seq<byte>, base: nat, at: nat)
    ensures ReadAttrs(data, base, at) == Some([]) <==> IsLast(data, at)
  {
  }

  /** The attribute whose value was stored last among those whose value is not empty; 0 for none, else one more
      than its number. */
  function LastValue(attrs: seq<Attr>): (k: nat)
    ensures k <= |attrs|
    ensures k > 0 ==> attrs[k - 1].value != []
    ensures forall i :: k <= i < |attrs| ==> attrs[i].value == []
  {
    if attrs == [] then 0
    else if attrs[|attrs| - 1].value != [] then |attrs|
    else LastValue(attrs[..|attrs| - 1])
  }

  /** The value starts with four zero bytes, counting those it is filled up with. */
  predicate LeadingZeros(value: seq<byte>) {
    forall i :: 0 <= i < |value| && i < 4 ==> value[i] == 0
  }

  /** The bytes behind the last entry read as the end of the list: bytes are left between entries and values, or
      the value stored last starts with zeros, or there is no value and the region is followed by zeros. */
  predicate Terminated(data: seq<byte>, r: Region, attrs: seq<Attr>) {
    || Gap(r, attrs) > 0
    || if LastValue(attrs) > 0 then LeadingZeros(attrs[LastValue(attrs) - 1].value) else IsLast(data, r.end)
  }

  /** Attributes with empty values behind number k leave the values where they were. */
  lemma {:induction false} EmptyValues(r: Region, attrs: seq<Attr>, k: nat, n: nat)
    requires k <= n <= |attrs| && forall i :: k <= i < n ==> attrs[i].value == []
    ensures ValuesFrom(r, attrs, n) == ValuesFrom(r, attrs, k)
  {
    if k < n { EmptyValues(r, attrs, k, n - 1); }
  }

  /** Where a non-empty value starts, the zero word of an end mark is found exactly when the value starts with zeros. */
  lemma ValueAsMark(data: seq<byte>, base: nat, at: nat, v: nat, a: Attr)
    requires Holds(data, base, at, v, a) && a.value != []
    ensures IsLast(data, v) <==> LeadingZeros(a.value)
  {
    hide U32At, U16At;
    var w := ValueBytes(a.value);
    ValueSizeBounds(|a.value|);
    FourBytes(data, v);
    forall i | 0 <= i < 4
      ensures data[v + i] == if i < |a.value| then a.value[i] else 0
    {
      assert data[v + i] == data[v..v + ValueSize(|a.value|)][i] == w[i];
    }
    if LeadingZeros(a.value) {
      assert data[v] == 0 && data[v + 1] == 0 && data[v + 2] == 0 && data[v + 3] == 0;
    }
    if IsLast(data, v) {
      forall i | 0 <= i < |a.value| && i < 4
        ensures a.value[i] == 0
      {
        assert data[v + i] == a.value[i];
      }
    }
  }

  /** The entries end in a mark exactly when the bytes behind them read as one. */
  lemma EndMarkExactly(data: seq<byte>, r: Region, attrs: seq<Attr>)
    requires Layout(data, r, attrs)
    ensures IsLast(data, EntryAt(r, attrs, |attrs|)) <==> Terminated(data, r, attrs)
  {
    hide Layout, Holds, EntryAt, ValuesFrom, U32At, LeadingZeros, IsLast;
    GapIsLast(data, r, attrs);
    LayoutBounds(data, r, attrs);
    FirstPlaces(r, attrs);
    if Gap(r, attrs) <= 0 {
      var k := LastValue(attrs);
      EmptyValues(r, attrs, k, |attrs|);
      if k > 0 {
        LayoutEntry(data, r, attrs, k - 1);
        ValueAsMark(data, r.base, EntryAt(r, attrs, k - 1), ValuesFrom(r, attrs, k), attrs[k - 1]);
      }
    }
  }

  /** The walk finds exactly the attributes added, with their names and values, when the entries end in a mark; else
      it runs on into the values. */
  lemma AttrsReadBack(data: seq<byte>, r: Region, attrs: seq<Attr>)
    requires Layout(data, r, attrs)
    ensures ReadAttrs(data, r.base, r.first) == Some(attrs) <==> Terminated(data, r, attrs)
  {
    hide Layout, ReadAttrs, EntryAt, Terminated, IsLast;
    FirstPlaces(r, attrs);
    ReadThrough(data, r, attrs, 0);
    ReadNothing(data, r.base, EntryAt(r, attrs, |attrs|));
    EndMarkExactly(data, r, attrs);
    var behind := ReadAttrs(data, r.base, EntryAt(r, attrs, |attrs|));
    assert attrs[0..] == attrs;
    if behind.Some? { assert attrs + behind.value == attrs <==> behind.value == []; }
  }

  /** The region for attributes in an inode of 256 bytes: behind 156 bytes of fields and 4 of header. */
  const INODE_REGION := Region(160, 160, 256)

  /** The attribute for a security context: a string with its end mark, under the name "selinux". */
  function Selinux(context: seq<byte>): Attr {
    Attr(6, [115, 101, 108, 105, 110, 117, 120], context + [0])
  }

  lemma SelinuxIs(context: seq<byte>)
    ensures Selinux(context).index == 6 && |Selinux(context).name| == |"selinux"|
    ensures forall i :: 0 <= i < 7 ==> Selinux(context).name[i] == "selinux"[i] as int
    ensures Selinux(context).value == context + [0]
  {
  }

  /** A security context is added to a new inode when it has at most 71 bytes, and reads back from it exactly when
      it has at most 67: longer ones fill the region to the last byte. */
  lemma FullRegion(inode: seq<byte>, context: seq<byte>)
    requires |inode| == 256 && (forall i :: 160 <= i < 256 ==> inode[i] == 0) && (context != [] ==> context[0] != 0)
    ensures var data := AddToRange(inode, INODE_REGION, Selinux(context));
      && (data.Some? <==> |context| <= 71)
      && (data.Some? ==> (ReadAttrs(data.value, 160, 160) == Some([Selinux(context)]) <==> |context| <= 67))
  {
    hide Layout, ReadAttrs, AddToRange, FreeSpace, ValueSize;
    var r, a := INODE_REGION, Selinux(context);
    EmptyLayout(inode, r);
    FreeSpaceIsGap(inode, r, [], 0);
    AddResult(inode, r, [], a);
    ContextSize(|a.value|);
    if |context| <= 71 {
      assert [] + [a] == [a] && Stored(a) == a;
      var data := AddToRange(inode, r, a).value;
      AttrsReadBack(data, r, [a]);
      assert LastValue([a]) == 1;
      OneGap(r, a);
      if |context| > 67 { assert a.value[0] == context[0]; }
    }
  }

  lemma ContextSize(n: nat)
    ensures EntryLen(7) == 24 && (ValueSize(n) <= 72 <==> n <= 72) && (ValueSize(n) < 72 <==> n <= 68)
  {
    ValueSizeBounds(n);
  }

  lemma OneGap(r: Region, a: Attr)
    ensures Gap(r, [a]) == r.end - r.first - Need(a)
  {
    assert EntryAt(r, [a], 0) == r.first && ValuesFrom(r, [a], 0) == r.end;
    assert EntryAt(r, [a], 1) == EntryAt(r, [a], 0) + EntryLen(|a.name|);
  }

  // ----- the steps

  method FreeSpaceOf(data: array<byte>, first: nat, end0: nat) returns (free: nat)
    requires end0 <= data.Length
    ensures free == FreeSpace(data[..], first, end0)
  {
    hide U32At, EntryLen, ValueSize;
    var at, end: int := first, end0;
    while at < end && !IsLast(data[..], at) && at + ENTRY <= data.Length
      invariant 0 <= at && end <= data.Length && FreeSpace(data[..], at, end) == FreeSpace(data[..], first, end0)
      decreases data.Length - at
    {
      EntryLenBounds(data[at]);
      end := end - ValueSize(U32At(data[..], at + 8));
      at := at + EntryLen(data[at]);
    }
    if at > end { return 0; }
    free := end - at;
  }

  method LastOf(data: array<byte>, first: nat) returns (last: Option<nat>)
    ensures last == GetLast(data[..], first)
  {
    hide U32At, EntryLen;
    var at: nat := first;
    while at + 4 <= data.Length && !IsLast(data[..], at)
      invariant GetLast(data[..], at) == GetLast(data[..], first)
      decreases data.Length - at
    {
      EntryLenBounds(data[at]);
      at := at + EntryLen(data[at]);
    }
    last := if at + 4 > data.Length then None else Some(at);
  }

  /** Clear the place of an entry and fill in its fields. */
  method WriteEntry(data: array<byte>, at: nat, a: Attr, offset: nat)
    requires ValidAttr(a) && at + EntryLen(|a.name|) <= data.Length
    modifies data
    ensures data[..] == Put(old(data[..]), at, EntryBytes(a, offset))
  {
    hide LE2, LE4, EntryLen, EntryBytes, EntryHeader, Put;
    EntryLenBounds(|a.name|);
    var len: byte, index: byte := |a.name|, a.index;
    ghost var was := data[..];
    Store(data, at, Zeros(EntryLen(|a.name|)));
    data[at], data[at + 1] := len, index;
    ghost var d0 := data[..];
    Store(data, at + ENTRY, a.name);
    ghost var d1 := data[..];
    Store(data, at + 4, LE4(0));
    ghost var d2 := data[..];
    Store(data, at + 8, LE4(|a.value|));
    ghost var d3 := data[..];
    Store(data, at + 2, LE2(offset));
    FieldsMakeEntry(was, d0, d1, d2, d3, data[..], at, a, offset);
  }

  /** The fields stored one by one make up the entry. */
  lemma FieldsMakeEntry(was: seq<byte>, d0: seq<byte>, d1: seq<byte>, d2: seq<byte>, d3: seq<byte>, d: seq<byte>,
          at: nat, a: Attr, offset: nat)
    requires ValidAttr(a) && ENTRY + |a.name| <= EntryLen(|a.name|) && at + EntryLen(|a.name|) <= |was| == |d0|
    requires forall k :: 0 <= k < |was| ==>
      d0[k] == (if k == at then |a.name| else if k == at + 1 then a.index
                else if at <= k < at + EntryLen(|a.name|) then 0 else was[k])
    requires d1 == Put(d0, at + ENTRY, a.name) && d2 == Put(d1, at + 4, LE4(0))
    requires d3 == Put(d2, at + 8, LE4(|a.value|)) && d == Put(d3, at + 2, LE2(offset))
    ensures d == Put(was, at, EntryBytes(a, offset))
  {
    hide LE2, LE4, EntryLen, EntryBytes, EntryHeader, Put;
    var e := Put(was, at, EntryBytes(a, offset));
    forall k: nat | k < |was|
      ensures d[k] == e[k]
    {
      if at <= k < at + EntryLen(|a.name|) { EntryByte(a, offset, k - at); }
    }
  }

  lemma EntryByte(a: Attr, offset: nat, k: nat)
    requires ValidAttr(a) && k < EntryLen(|a.name|)
    ensures EntryBytes(a, offset)[k] ==
      if k == 0 then |a.name| else if k == 1 then a.index
      else if k < 4 then LE2(offset)[k - 2] else if k < 8 then LE4(0)[k - 4]
      else if k < 12 then LE4(|a.value|)[k - 8] else if ENTRY <= k < ENTRY + |a.name| then a.name[k - ENTRY] else 0
  {
    hide LE2, LE4, EntryLen;
    ZeroField();
    var len: byte, index: byte := |a.name|, a.index;
    assert EntryHeader(a, offset) == [len, index] + LE2(offset) + LE4(0) + LE4(|a.value|) + LE4(0);
  }

  lemma ZeroField()
    ensures LE4(0) == [0, 0, 0, 0]
  {
  }

  method WriteValue(data: array<byte>, v: nat, value: seq<byte>)
    requires v + ValueSize(|value|) <= data.Length
    modifies data
    ensures data[..] == Put(old(data[..]), v, ValueBytes(value))
  {
    hide ValueSize;
    ValueSizeBounds(|value|);
    Store(data, v, Zeros(ValueSize(|value|)));
    Store(data, v, value);
    assert data[..] == Put(old(data[..]), v, ValueBytes(value));
  }

  /** With free space the last entry is found, and the free bytes lie behind it. */
  lemma PlaceOfNew(data: seq<byte>, r: Region, attrs: seq<Attr>)
    requires Layout(data, r, attrs) && FreeSpace(data, r.first, r.end) > 0
    ensures GetLast(data, r.first).Some?
    ensures var at := GetLast(data, r.first).value; r.first <= at && at + FreeSpace(data, r.first, r.end) <= r.end
  {
    hide Layout, FreeSpace, GetLast, EntryAt, ValuesFrom;
    LayoutBounds(data, r, attrs);
    FirstPlaces(r, attrs);
    FreeSpaceIsGap(data, r, attrs, 0);
    GetLastIsEnd(data, r, attrs, 0);
  }

  /** Where an addition puts its entry and its value. */
  lemma AddPlan(data: seq<byte>, r: Region, attrs: seq<Attr>, a: Attr)
    requires Layout(data, r, attrs)
    ensures ValidRegion(r, |data|)
    ensures if |a.name| > 255 || EntryLen(|a.name|) + ValueSize(|a.value|) > FreeSpace(data, r.first, r.end) then
              AddToRange(data, r, a) == None
            else
              && GetLast(data, r.first).Some?
              && var at, size := GetLast(data, r.first).value, ValueSize(|a.value|);
              var v := at + FreeSpace(data, r.first, r.end) - size;
              && r.base <= v && at + EntryLen(|a.name|) <= v && v + size <= |data|
              && AddToRange(data, r, a)
                 == Some(Put(Put(data, at, EntryBytes(Stored(a), v - r.base)), v, ValueBytes(a.value)))
  {
    hide Layout, FreeSpace, GetLast, EntryLen, ValueSize, EntryBytes, ValueBytes, Put;
    LayoutBounds(data, r, attrs);
    EntryLenBounds(|a.name|);
    if Need(a) <= FreeSpace(data, r.first, r.end) { PlaceOfNew(data, r, attrs); }
  }

  method XattrAddtoRange(data: array<byte>, r: Region, a: Attr, ghost attrs: seq<Attr>) returns (ok: bool)
    requires Layout(data[..], r, attrs)
    modifies data
    ensures Layout(old(data[..]), r, attrs)
    ensures var before := old(data[..]);
      && ValidRegion(r, |before|)
      && ok == AddToRange(before, r, a).Some?
      && data[..] == if ok then AddToRange(before, r, a).value else before
  {
    hide Layout, FreeSpace, GetLast, EntryLen, ValueSize, EntryBytes, ValueBytes, Put, AddToRange, U32At, IsLast;
    LayoutBounds(data[..], r, attrs);
    AddPlan(data[..], r, attrs, a);
    var nameLen := |a.name|;
    if nameLen > 255 { return false; }
    var available := FreeSpaceOf(data, r.first, r.end);
    var needed := EntryLen(nameLen) + ValueSize(|a.value|);
    if needed > available { return false; }
    var newEntry := LastOf(data, r.first);
    var at := newEntry.value;
    var v: nat := at + available - ValueSize(|a.value|);
    WriteEntry(data, at, Stored(a), v - r.base);
    WriteValue(data, v, a.value);
    ok := true;
  }
}
